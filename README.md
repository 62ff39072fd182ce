# ServerInfo / PlayerInfo, modelled in Dafny

ServerInfo (PlayerInfo) is a Minecraft plugin. Each backend server runs the Bukkit side. It sends a JSON snapshot of every online player (items, level, health, location, custom placeholders) to the BungeeCord proxy, over the plugin-message channel. The proxy keeps the latest snapshot of each player per server and drops stale ones. It serves them through a small HTTP server to a web page that shows the players, their inventories and their custom placeholders. Access can be guarded by a login with per-user lockout and sliding-expiry sessions.

This project models the logic of that pipeline and proves what each part promises:

- `wrappers.dfy`, `text.dfy`: `Option`/`Result`. Also the string primitives the sources rely on: Java's and JavaScript's `split`, their `trim`s, ASCII case mapping, and decimal rendering.
- `data_io.dfy`: `DataOutputStream`/`DataInputStream` (`writeUTF` with modified UTF-8, `writeBoolean`, `writeInt` and their readers) and the UTF-8 charset. Strings are sequences of UTF-16 units in Java.
- `uuids.dfy`: `UUID.toString`/`fromString`.
- `wire.dfy`, `sender.dfy`: the backend's frames (`PlayerData` plain or GZIP-compressed, `PlayerRemove`, `ServerInfo`) and the proxy's `Refresh`. Includes the 30000/32000-byte thresholds, and `MessageSender` with its registration flag and outgoing buffer.
- `json.dfy`, `store.dfy`, `listener.dfy`: the proxy's `BungeePlayerController`, two nested maps server → player → snapshot / time updated in place. Also the `MessageListener` that decodes frames and applies them.
- `sessions.dfy`, `auth.dfy`, `password.dfy`, `webauth.dfy`: the web panel's `SessionManager`, `AuthController` (lockout state machine, credentials parser, session-id lookup), `PasswordHash` and `WebAuthFilter`.
- `web_routing.dfy`: `BungeeWebServer`'s context choice, static-file rule, content types, query parameters and API dispatch.
- `serializer.dfy`, `placeholder_data.dfy`: `ItemStackSerializer` over abstract items, and the `PlaceholderData` bean.
- `item_tables.dfy`, `chat_colors.dfy`, `html_escape.dfy`, `player_view.dfy`: the pure helpers of the player page (`app.js`). These are the `.cnf` tables, colour codes, HTML escaping, the server list total, armour detection and the inventory grid.
- `placeholder_view.dfy`: the placeholder panel (`placeholder.js`). It covers the name fallback chain, the garbled-text check, value display, priority order, and the panel's element list.

Pieces the model cannot see are parameters, each with the facts the model relies on stated as a predicate that callers must establish:

- the clock (`now`);
- GZIP;
- Gson parsing;
- PBKDF2 and Base64;
- random session ids;
- URL decoding;
- `Intl.NumberFormat`;
- the iteration order of hash maps.

## Model

| member | source | states |
|---|---|---|
| Text.IndexOf | src/main/java/cn/i7mc/playerinfo/bungee/web/BungeeWebServer.java:391-411 | the first index of a character: none exactly when it does not occur, otherwise a position holding it with no earlier occurrence |
| Text.LastIndexOf | src/main/java/cn/i7mc/playerinfo/bungee/web/BungeeWebServer.java:262-272 | the last index of a character: none exactly when it does not occur, otherwise a position holding it with no later occurrence |
| Text.Fields | src/main/resources/web/js/app.js:178 | JavaScript `split` on one character always gives at least one field |
| Text.FieldsJoin | src/main/resources/web/js/app.js:185 | joining the fields with the separator gives the text back, and no field holds the separator |
| Text.FieldsOfSepFree | src/main/resources/web/js/app.js:185 | a text without the separator is its own single field |
| Text.FieldsCount | src/main/resources/web/js/app.js:178 | there is one field more than there are separators |
| Text.FieldsCons | src/main/resources/web/js/app.js:185-188 | the first field ends at the first separator |
| Text.DropTrailingEmpty | src/main/java/cn/i7mc/playerinfo/auth/AuthController.java:338 | Java's `split` drops exactly the trailing empty fields |
| Text.JavaSplit | src/main/java/cn/i7mc/playerinfo/auth/AuthController.java:338-340 | Java `split` on one literal character: `[s]` when it does not occur; otherwise no field holds the separator, the fields joined by it are a prefix of `s` followed only by separators, and the last field is not empty |
| Text.JavaSplitTwo | src/main/java/cn/i7mc/playerinfo/auth/AuthController.java:340 | `a=b` splits into exactly `a` and `b` when neither holds '=' and `b` is not empty |
| Text.JavaTrim | src/main/java/cn/i7mc/playerinfo/auth/AuthController.java:320-321 | Java `trim` only shortens, and the result neither starts nor ends with a character at or below U+0020 |
| Text.JavaTrimStrips | src/main/java/cn/i7mc/playerinfo/auth/AuthController.java:320-321 | the trimmed text is a slice of the input with only characters at or below U+0020 before and after it |
| Text.JsTrim | src/main/resources/web/js/app.js:182-188 | JavaScript `trim` only shortens, and the result neither starts nor ends with white space |
| Text.JsTrimStrips | src/main/resources/web/js/app.js:182-188 | the trimmed text is a slice of the input with only white space before and after it |
| Text.Lower | src/main/resources/web/js/app.js:1937 | lowercasing keeps the length and lowercases each ASCII letter in place |
| Text.NatToString | src/main/resources/web/js/app.js:350 | the decimal form of a natural number is a nonempty run of digits without a leading zero whose decimal value is the number |
| Text.FieldsOfJoin | src/main/resources/web/js/placeholder.js:444 | splitting texts joined by a separator they do not hold gives those texts back |
| DataIO.WriteUTF | src/main/java/cn/i7mc/playerinfo/messaging/MessageSender.java:143-152 | `writeUTF` writes a two-byte big-endian length followed by the modified UTF-8 bytes, and fails exactly when those bytes exceed 65535 |
| DataIO.ShortWritable | src/main/java/cn/i7mc/playerinfo/messaging/MessageSender.java:119-122 | a string of at most 8191 characters (a tag, a UUID text) always fits `writeUTF`, taking 2 bytes more than its modified UTF-8 form |
| DataIO.Mutf8RoundTrip | src/main/java/cn/i7mc/playerinfo/bungee/messaging/MessageListener.java:83 | decoding the modified UTF-8 form of any string gives the string back, supplementary characters included |
| DataIO.Utf8RoundTrip | src/main/java/cn/i7mc/playerinfo/bungee/messaging/MessageListener.java:108 | `new String(bytes, UTF_8)` of `getBytes(UTF_8)` of any string is the string |
| DataIO.Mutf8AtMostTwiceUtf8 | src/main/java/cn/i7mc/playerinfo/messaging/MessageSender.java:88-97 | the modified UTF-8 form of a string is at most twice as long as its UTF-8 form, which has at least one byte per character |
| DataIO.WriteInt | src/main/java/cn/i7mc/playerinfo/messaging/MessageSender.java:128 | `writeInt` writes exactly four bytes |
| DataIO.ReadFully | src/main/java/cn/i7mc/playerinfo/bungee/messaging/MessageListener.java:97-98 | reading n bytes fails exactly when fewer than n remain; otherwise it returns the next n bytes and advances by n |
| DataIO.ReadBoolean | src/main/java/cn/i7mc/playerinfo/bungee/messaging/MessageListener.java:90 | a successful `readBoolean` leaves the stream in a valid position |
| DataIO.ReadInt | src/main/java/cn/i7mc/playerinfo/bungee/messaging/MessageListener.java:96 | a successful `readInt` yields a 32-bit value |
| DataIO.ReadUTF | src/main/java/cn/i7mc/playerinfo/bungee/messaging/MessageListener.java:83 | a successful `readUTF` leaves the stream in a valid position |
| DataIO.ReadWriteUTF | src/main/java/cn/i7mc/playerinfo/bungee/messaging/MessageListener.java:83-111 | `readUTF` over what `writeUTF(s)` wrote, followed by anything, returns `s` and stops right after it |
| DataIO.ReadUTFAt | src/main/java/cn/i7mc/playerinfo/bungee/messaging/MessageListener.java:87 | the same at any position of a frame where `writeUTF(s)` was written |
| DataIO.TruncatedReadUTFFails | src/main/java/cn/i7mc/playerinfo/bungee/messaging/MessageListener.java:161-163 | `readUTF` over a field cut short anywhere fails with an I/O error |
| DataIO.ReadWriteBoolean | src/main/java/cn/i7mc/playerinfo/bungee/messaging/MessageListener.java:90 | `readBoolean` reads back what `writeBoolean` wrote and advances by one byte |
| DataIO.ReadWriteInt | src/main/java/cn/i7mc/playerinfo/bungee/messaging/MessageListener.java:96 | `readInt` reads back any 32-bit value `writeInt` wrote, sign included, and advances by four bytes |
| DataIO.CharUnits | src/main/java/cn/i7mc/playerinfo/messaging/MessageSender.java:152 | a Java string holds each character as one UTF-16 unit, or as a high and a low surrogate for a character beyond U+FFFF |
| DataIO.FromUnitsOfUnits | src/main/java/cn/i7mc/playerinfo/bungee/messaging/MessageListener.java:111 | the UTF-16 units of a string read back as that string |
| DataIO.UnitMutf8Decodes | src/main/java/cn/i7mc/playerinfo/bungee/messaging/MessageListener.java:111 | the one to three modified UTF-8 bytes of a unit decode back to that unit, whatever follows |
| DataIO.UnitsMutf8RoundTrip | src/main/java/cn/i7mc/playerinfo/messaging/MessageSender.java:152 | the modified UTF-8 bytes of any sequence of UTF-16 units decode back to those units |
| DataIO.CharUtf8Decodes | src/main/java/cn/i7mc/playerinfo/bungee/messaging/MessageListener.java:108 | the UTF-8 bytes of a character decode back to that character, whatever follows |
| DataIO.Utf8AtMostFour | src/main/java/cn/i7mc/playerinfo/messaging/MessageSender.java:88 | the UTF-8 form of a string takes at most four bytes per character |
| DataIO.Wrap32 | src/main/java/cn/i7mc/playerinfo/auth/AuthController.java:740 | Java `int` arithmetic: the result is a 32-bit value congruent to the exact one modulo 2^32, and equal to it when it fits |
| Uuids.FromToString | src/main/java/cn/i7mc/playerinfo/bungee/messaging/MessageListener.java:122 | `UUID.fromString` of `UUID.toString` gives the same UUID back |
| Uuids.ToStringInjective | src/main/java/cn/i7mc/playerinfo/messaging/MessageSender.java:122 | two UUIDs with the same text form are the same UUID |
| Wire.TagsWritable | src/main/java/cn/i7mc/playerinfo/messaging/MessageSender.java:119-122 | the four message tags and any player's UUID text always fit `writeUTF` |
| Wire.EncodePlayerDataOutcome | src/main/java/cn/i7mc/playerinfo/messaging/MessageSender.java:97-112 | sending a player's data fails exactly when the UTF-8 payload is over 30000 bytes and its compressed form over 32000, and then only with "payload too large" |
| Wire.EncodeOutcome | src/main/java/cn/i7mc/playerinfo/messaging/MessageSender.java:97-152 | the same for any UUID text that fits `writeUTF` |
| Wire.SmallPayloadLayout | src/main/java/cn/i7mc/playerinfo/messaging/MessageSender.java:137-152 | a payload of at most 30000 UTF-8 bytes is framed as tag, UUID, flag 0, then `writeUTF(json)` |
| Wire.SmallJsonWritable | src/main/java/cn/i7mc/playerinfo/messaging/MessageSender.java:97-152 | JSON of at most 30000 UTF-8 bytes always fits `writeUTF`, so the uncompressed branch never throws |
| Wire.LargePayloadLayout | src/main/java/cn/i7mc/playerinfo/messaging/MessageSender.java:97-132 | a larger payload that is sent is framed as tag, UUID, flag 1, the compressed length as a big-endian int, then the at most 32000 compressed bytes |
| Wire.FlagByte | src/main/java/cn/i7mc/playerinfo/messaging/MessageSender.java:125 | the byte after the tag and the UUID is 1 exactly when the payload was over the threshold |
| Wire.TagsDiffer | src/main/java/cn/i7mc/playerinfo/bungee/messaging/MessageListener.java:85-156 | the three message tags the proxy dispatches on are pairwise different |
| Wire.DispatchPlayerData | src/main/java/cn/i7mc/playerinfo/bungee/messaging/MessageListener.java:83-87 | a frame starting with the "PlayerData" tag is read by the PlayerData reader |
| Wire.DispatchPlayerRemove | src/main/java/cn/i7mc/playerinfo/bungee/messaging/MessageListener.java:130-132 | a frame starting with the "PlayerRemove" tag is read by the PlayerRemove reader |
| Wire.DispatchServerInfo | src/main/java/cn/i7mc/playerinfo/bungee/messaging/MessageListener.java:156-159 | a frame starting with the "ServerInfo" tag is read by the ServerInfo reader |
| Wire.PlayerDataRoundTrip | src/main/java/cn/i7mc/playerinfo/bungee/messaging/MessageListener.java:85-112 | for a lawful GZIP, the proxy reads back exactly the UUID text and the JSON the backend framed, on the compressed and the plain branch |
| Wire.PlayerRemoveRoundTrip | src/main/java/cn/i7mc/playerinfo/bungee/messaging/MessageListener.java:130-132 | a PlayerRemove frame is the tag then the UUID, and reads back as that UUID |
| Wire.ServerInfoLayout | src/main/java/cn/i7mc/playerinfo/messaging/MessageSender.java:229-233 | a ServerInfo frame is the tag, `writeUTF(version)`, then `writeInt(online)` |
| Wire.ServerInfoRoundTrip | src/main/java/cn/i7mc/playerinfo/bungee/messaging/MessageListener.java:156-159 | a ServerInfo frame reads back as its version and player count |
| Wire.TruncatedPlayerRemoveFails | src/main/java/cn/i7mc/playerinfo/bungee/messaging/MessageListener.java:161-163 | a PlayerRemove frame cut short anywhere fails to decode |
| Wire.TruncatedTagFails | src/main/java/cn/i7mc/playerinfo/bungee/messaging/MessageListener.java:83 | a frame cut inside its tag fails to decode, whichever tag it carries |
| Wire.TruncatedPlayerDataFails | src/main/java/cn/i7mc/playerinfo/bungee/messaging/MessageListener.java:85-112 | a PlayerData frame cut short anywhere fails to decode, on both layouts: inside the tag or the UUID, before the flag, inside `writeUTF(json)`, or inside the block length or the compressed block |
| Wire.TruncatedUuidFails | src/main/java/cn/i7mc/playerinfo/bungee/messaging/MessageListener.java:132 | a PlayerRemove frame cut inside its UUID field fails to decode |
| Wire.DecodeFailsOnTag | src/main/java/cn/i7mc/playerinfo/bungee/messaging/MessageListener.java:83 | a frame whose tag cannot be read fails to decode |
| Wire.RemoveFailsOnUuid | src/main/java/cn/i7mc/playerinfo/bungee/messaging/MessageListener.java:132 | a PlayerRemove body whose UUID cannot be read fails to decode |
| Uuids.ToString | src/main/java/cn/i7mc/playerinfo/messaging/MessageSender.java:122 | the text form of a UUID has 36 characters with hyphens exactly at positions 8, 13, 18 and 23 |
| Uuids.FromString | src/main/java/cn/i7mc/playerinfo/bungee/messaging/MessageListener.java:138 | `UUID.fromString` (JDK 9 and later) answers only for texts of at most 36 characters holding exactly four hyphens; each of the five groups is an optional '+' and hexadecimal digits of a value below 2^63, masked to 32, 16, 16, 16 and 48 bits |
| Uuids.LeadingZeroParses | src/main/java/cn/i7mc/playerinfo/bungee/messaging/MessageListener.java:138 | `fromString` is lenient about group width: padding a group with a zero reads the same value |
| Sender.Emitted | src/main/java/cn/i7mc/playerinfo/messaging/MessageSender.java:132 | a send hands over one message, through the given player, exactly when its frame could be built |
| Sender.BuildPlayerData | src/main/java/cn/i7mc/playerinfo/messaging/MessageSender.java:97-152 | the frame written field by field is the PlayerData encoding, and nothing is sent exactly when the encoding fails |
| Sender.BuildPlayerRemove | src/main/java/cn/i7mc/playerinfo/messaging/MessageSender.java:188-195 | the frame written field by field is the PlayerRemove encoding, which never fails for a UUID |
| Sender.BuildServerInfo | src/main/java/cn/i7mc/playerinfo/messaging/MessageSender.java:225-233 | the frame written field by field is the ServerInfo encoding, and nothing is sent exactly when the version is too long |
| Sender.MessageSender.constructor | src/main/java/cn/i7mc/playerinfo/messaging/MessageSender.java:32-44 | a new sender holds the configured channel, is unregistered and has sent nothing |
| Sender.MessageSender.Register | src/main/java/cn/i7mc/playerinfo/messaging/MessageSender.java:49-55 | after registering, the channel is registered once, whatever the flag was before |
| Sender.MessageSender.Unregister | src/main/java/cn/i7mc/playerinfo/messaging/MessageSender.java:60-65 | after unregistering, the channel is gone and the flag is clear |
| Sender.MessageSender.SendPlayerData | src/main/java/cn/i7mc/playerinfo/messaging/MessageSender.java:73-171 | when disabled nothing changes; otherwise the channel is registered and the outbox grows by the frame through that player, or by nothing when the payload is too large |
| Sender.MessageSender.SendPlayerRemove | src/main/java/cn/i7mc/playerinfo/messaging/MessageSender.java:178-206 | when disabled nothing changes; otherwise the channel is registered and the removal frame is sent through that player |
| Sender.MessageSender.SendServerInfo | src/main/java/cn/i7mc/playerinfo/messaging/MessageSender.java:211-245 | when enabled the channel is registered first; with players online the version and the online count are sent through the first of them, otherwise nothing is sent |
| Store.Put | src/main/java/cn/i7mc/playerinfo/bungee/controller/BungeePlayerController.java:65-69 | storing keeps every server and adds the target server's bucket when it was missing |
| Store.Delete | src/main/java/cn/i7mc/playerinfo/bungee/controller/BungeePlayerController.java:79-95 | a removal never drops a server, even one whose bucket it empties |
| Store.Evict | src/main/java/cn/i7mc/playerinfo/bungee/controller/BungeePlayerController.java:306-317 | reconciling a player keeps every server |
| Store.Sweep | src/main/java/cn/i7mc/playerinfo/bungee/controller/BungeePlayerController.java:106-121 | a sweep keeps every server |
| Store.Stamp | src/main/java/cn/i7mc/playerinfo/bungee/controller/BungeePlayerController.java:70 | every stored player is stamped with the same current time |
| Store.PutGet | src/main/java/cn/i7mc/playerinfo/bungee/controller/BungeePlayerController.java:63-71 | after a store, (server, player) holds the new value and every other entry is unchanged |
| Store.DeleteGet | src/main/java/cn/i7mc/playerinfo/bungee/controller/BungeePlayerController.java:79-95 | after a removal, (server, player) is absent and every other entry is unchanged; an absent entry is a no-op |
| Store.EvictGet | src/main/java/cn/i7mc/playerinfo/bungee/controller/BungeePlayerController.java:304-318 | after reconciling, the player is in no bucket but the current server's, that bucket is untouched, and other players are untouched |
| Store.SweepGet | src/main/java/cn/i7mc/playerinfo/bungee/controller/BungeePlayerController.java:102-122 | a sweep removes exactly the entries with now − time > maxAge, so an entry exactly maxAge old is kept |
| Store.PutAligned | src/main/java/cn/i7mc/playerinfo/bungee/controller/BungeePlayerController.java:63-71 | storing into both maps keeps their per-server key sets equal |
| Store.DeleteAligned | src/main/java/cn/i7mc/playerinfo/bungee/controller/BungeePlayerController.java:79-95 | removing from both maps keeps their per-server key sets equal |
| Store.EvictAligned | src/main/java/cn/i7mc/playerinfo/bungee/controller/BungeePlayerController.java:304-318 | reconciling both maps keeps their per-server key sets equal |
| Store.SweepAligned | src/main/java/cn/i7mc/playerinfo/bungee/controller/BungeePlayerController.java:102-122 | sweeping both maps by the same times keeps their per-server key sets equal |
| Store.PutAllGet | src/main/java/cn/i7mc/playerinfo/bungee/controller/BungeePlayerController.java:263-274 | after a batch of stores, each player holds the value of its last pair in the batch, or what it had |
| Store.PutAllAligned | src/main/java/cn/i7mc/playerinfo/bungee/controller/BungeePlayerController.java:247-285 | a batch of stores into the data and time maps keeps them aligned |
| Store.ElementUpdate | src/main/java/cn/i7mc/playerinfo/bungee/controller/BungeePlayerController.java:264-273 | one `players` element stores at most one player |
| Store.ElementUpdatesSound | src/main/java/cn/i7mc/playerinfo/bungee/controller/BungeePlayerController.java:263-274 | every stored pair comes from an element that has a name and that uuid, stored as that element's own text |
| Store.ElementUpdatesComplete | src/main/java/cn/i7mc/playerinfo/bungee/controller/BungeePlayerController.java:263-274 | every storable element before the first one that throws out of the loop is stored |
| Store.ElementUpdatesAt | src/main/java/cn/i7mc/playerinfo/bungee/controller/BungeePlayerController.java:263 | the `forEach` continues past an element that does not throw |
| Store.NamesIn | src/main/java/cn/i7mc/playerinfo/bungee/controller/BungeePlayerController.java:188-202 | the names listed are exactly the names read from the bucket's snapshots, never more than the snapshots |
| Store.FindByName | src/main/java/cn/i7mc/playerinfo/bungee/controller/BungeePlayerController.java:226-238 | the detail search never reports a missing server; it reports "not found" exactly when no snapshot's name matches ignoring case, and otherwise returns the first matching snapshot in iteration order |
| Store.BungeePlayerController.UpdatePlayerData | src/main/java/cn/i7mc/playerinfo/bungee/controller/BungeePlayerController.java:63-71 | the snapshot and the time are stored under (server, player) and the two maps stay aligned |
| Store.BungeePlayerController.RemovePlayerData | src/main/java/cn/i7mc/playerinfo/bungee/controller/BungeePlayerController.java:79-95 | (server, player) is removed from both maps, which stay aligned |
| Store.BungeePlayerController.CleanupStaleData | src/main/java/cn/i7mc/playerinfo/bungee/controller/BungeePlayerController.java:102-122 | both maps become their sweep by the old times at `now` |
| Store.BungeePlayerController.RemoveEach | src/main/java/cn/i7mc/playerinfo/bungee/controller/BungeePlayerController.java:117-120 | removing the collected players one at a time removes exactly them from the one server |
| Store.BungeePlayerController.CorrectPlayerServerData | src/main/java/cn/i7mc/playerinfo/bungee/controller/BungeePlayerController.java:304-318 | both maps become their eviction of the player from every server but the current one |
| Store.BungeePlayerController.UpdatePlayersData | src/main/java/cn/i7mc/playerinfo/bungee/controller/BungeePlayerController.java:247-285 | the payload's stores (one player for a `uuid` payload, the elements of a `players` array, nothing for an unparsable or unknown payload or a bad uuid) are applied to both maps, stamped with `now` |
| Store.BungeePlayerController.UpdateElements | src/main/java/cn/i7mc/playerinfo/bungee/controller/BungeePlayerController.java:263-274 | the `forEach` applies the stores of the elements before the first one that throws |
| Store.BungeePlayerController.UpdateElement | src/main/java/cn/i7mc/playerinfo/bungee/controller/BungeePlayerController.java:264-273 | one element stores its own text under its uuid when it has a name and a well-formed uuid |
| Store.BungeePlayerController.ServerPlayerData | src/main/java/cn/i7mc/playerinfo/bungee/controller/BungeePlayerController.java:293-295 | the bucket is returned exactly when the server has one, and agrees with the store entry by entry |
| Store.BungeePlayerController.HandlePlayerList | src/main/java/cn/i7mc/playerinfo/bungee/controller/BungeePlayerController.java:182-211 | an unknown server gives an empty list; otherwise the names of the parsable snapshots that have one, in iteration order |
| Store.BungeePlayerController.HandlePlayerDetails | src/main/java/cn/i7mc/playerinfo/bungee/controller/BungeePlayerController.java:220-239 | an unknown server gives the "Server not found" error; otherwise the first snapshot whose name matches ignoring case, or the "Player not found" error |
| Store.BungeePlayerController.HandleServerListWithPlayerCount | src/main/java/cn/i7mc/playerinfo/bungee/controller/BungeePlayerController.java:144-174 | every proxy server is listed in order with its number of cached snapshots, or its connected count when it has no bucket |
| Store.CollectStale | src/main/java/cn/i7mc/playerinfo/bungee/controller/BungeePlayerController.java:108-114 | the players collected are exactly the stale ones of that server |
| Store.BungeePlayerController.constructor | src/main/java/cn/i7mc/playerinfo/bungee/controller/BungeePlayerController.java:39-45 | a new controller stores no player data and no update times |
| Listener.SenderName | src/main/java/cn/i7mc/playerinfo/bungee/messaging/MessageListener.java:75-79 | a message from a server connection is attributed to that server, any other sender to "unknown" |
| Listener.Correction | src/main/java/cn/i7mc/playerinfo/bungee/messaging/MessageListener.java:118-126 | the player to reconcile is read from the JSON's scalar `uuid` member when it is a well-formed UUID, never from the envelope |
| Listener.RefreshTargets | src/main/java/cn/i7mc/playerinfo/bungee/messaging/MessageListener.java:200-202 | the refresh targets are exactly the servers with at least one connected player, no more than there are servers |
| Listener.Addressed | src/main/java/cn/i7mc/playerinfo/bungee/messaging/MessageListener.java:205-213 | every target is sent the same one-field "Refresh" frame |
| Listener.ReceiveAligned | src/main/java/cn/i7mc/playerinfo/bungee/messaging/MessageListener.java:69-164 | handling any message keeps the snapshot and time maps aligned |
| Listener.ApplyAligned | src/main/java/cn/i7mc/playerinfo/bungee/messaging/MessageListener.java:115-155 | applying any decoded message keeps the snapshot and time maps aligned |
| Listener.NamedSnapshotUpdates | src/main/java/cn/i7mc/playerinfo/bungee/messaging/MessageListener.java:115 | a snapshot carrying a well-formed `uuid` is stored whole under that player, and nothing else is stored |
| Listener.SnapshotFrameApplies | src/main/java/cn/i7mc/playerinfo/bungee/messaging/MessageListener.java:85-126 | a PlayerData frame from server s stores the snapshot under s, then evicts the player from every other server |
| Listener.SnapshotDelivered | src/main/java/cn/i7mc/playerinfo/bungee/messaging/MessageListener.java:85-126 | end to end: after a backend's snapshot of u arrives from s, u is held by s alone with that snapshot and time, and every other player is untouched |
| Listener.DepartureDelivered | src/main/java/cn/i7mc/playerinfo/bungee/messaging/MessageListener.java:130-155 | end to end: a departure of u from s removes only (s, u) |
| Listener.TruncatedSnapshotIgnored | src/main/java/cn/i7mc/playerinfo/bungee/messaging/MessageListener.java:82-112 | a PlayerData frame cut short anywhere is caught as an IOException before any store call, so both tables stay as they were |
| Listener.TruncatedDepartureIgnored | src/main/java/cn/i7mc/playerinfo/bungee/messaging/MessageListener.java:130-163 | a PlayerRemove frame cut short anywhere leaves both tables as they were |
| Listener.RefreshReadsBack | src/main/java/cn/i7mc/playerinfo/bungee/messaging/MessageListener.java:209 | the refresh frame decodes as a message of the unhandled type "Refresh" |
| Listener.OtherChannelIgnored | src/main/java/cn/i7mc/playerinfo/bungee/messaging/MessageListener.java:70-72 | a message on another channel changes nothing, whatever its bytes |
| Listener.MessageListener.constructor | src/main/java/cn/i7mc/playerinfo/bungee/messaging/MessageListener.java:49-63 | constructing the listener registers its channel and has sent nothing |
| Listener.MessageListener.OnPluginMessage | src/main/java/cn/i7mc/playerinfo/bungee/messaging/MessageListener.java:69-164 | the controller's maps become the result of receiving the message, and stay aligned |
| Listener.MessageListener.RequestDataRefresh | src/main/java/cn/i7mc/playerinfo/bungee/messaging/MessageListener.java:197-219 | a "Refresh" frame goes to each server with players, in map order, and to no other |
| Listener.MessageListener.Unregister | src/main/java/cn/i7mc/playerinfo/bungee/messaging/MessageListener.java:224-228 | the channel is released and nothing is sent |
| ItemTables.LineEntry | src/main/resources/web/js/app.js:181-190 | a comment or blank line, or a line without '=', contributes nothing; an entry is the trimmed first two '='-fields, neither holding '=' |
| ItemTables.JsTrimWithin | src/main/resources/web/js/app.js:187-188 | trimming adds no character that was not in the text |
| ItemTables.ApplyLookup | src/main/resources/web/js/app.js:180-191 | after reading the lines, a key is present exactly when some line gives it or it was there before; it holds the value of the last line giving it, and otherwise keeps its old value |
| ItemTables.CommentLineIgnored | src/main/resources/web/js/app.js:182-184 | appending a comment or blank line leaves the table as it is |
| ItemTables.ValueStopsAtSecondEquals | src/main/resources/web/js/app.js:185-189 | a line `k=v=w` maps the trimmed `k` to the trimmed `v`, and the text after the second '=' is lost |
| ItemTables.Lookup | src/main/resources/web/js/app.js:346-358 | a positive damage with a non-empty `type:damage` entry selects that entry; otherwise the type's non-empty entry, or nothing |
| ItemTables.NoDamageUsesType | src/main/resources/web/js/app.js:347 | a missing, zero or negative damage looks up the plain type |
| ItemTables.DamageEntryFallsBack | src/main/resources/web/js/app.js:352-358 | with no `type:damage` entry, a positive damage falls back to the plain type |
| ItemTables.ItemTableSet.constructor | src/main/resources/web/js/app.js:158-159 | both tables start empty |
| ItemTables.ItemTableSet.TranslateItemName | src/main/resources/web/js/app.js:345-359 | the translation found, or the type name itself; the result is empty only for an empty type name |
| ItemTables.ItemTableSet.GetItemIconUrl | src/main/resources/web/js/app.js:362-387 | always a path under `./img/items/`: the mapped file, or `barrier.png` when there is no entry |
| ItemTables.ItemTableSet.LoadIconMapping | src/main/resources/web/js/app.js:163-199 | a loaded file is read line by line into the icon table; a failed load resets it to empty; the translation table is untouched |
| ItemTables.ItemTableSet.LoadTranslations | src/main/resources/web/js/app.js:202-238 | the same for the translation table, leaving the icon table untouched |
| ItemTables.ReadLines | src/main/resources/web/js/app.js:178-191 | the `forEach` over the lines leaves the table equal to the lines applied in order |
| HtmlEscape.ReplaceAppend | src/main/resources/web/js/app.js:1581-1585 | a global one-character replacement acts on each part of a concatenation separately |
| HtmlEscape.ReplaceAbsent | src/main/resources/web/js/app.js:1581-1585 | a replacement leaves a text without that character unchanged |
| HtmlEscape.EscapeChar | src/main/resources/web/js/app.js:1581-1585 | the five special characters become entities, which begin with '&', end with ';' and hold no '<', '>', '"' or quote; any other character is kept |
| HtmlEscape.Escape | src/main/resources/web/js/app.js:1576-1586 | the escaped text holds no raw '<', '>', '"' or single quote |
| HtmlEscape.ChainIsCharwise | src/main/resources/web/js/app.js:1580-1585 | the five replacements, applied in order with '&' first, are the same as escaping each character on its own, so no entity is escaped twice |
| HtmlEscape.ReplaceSingle | src/main/resources/web/js/app.js:1581-1585 | a replacement on a one-character text gives the replacement exactly when that character matches |
| HtmlEscape.ChainFrom | src/main/resources/web/js/app.js:1582-1585 | the replacements that come after a character's own one leave its entity as it is |
| HtmlEscape.SingleCharChain | src/main/resources/web/js/app.js:1580-1585 | on a single character the chain gives that character's entity |
| HtmlEscape.UnescapeSpecial | src/main/resources/web/js/app.js:1581-1585 | decoding an entity gives back its special character, and the text after it is decoded separately |
| HtmlEscape.UnescapePlain | src/main/resources/web/js/app.js:1581-1585 | decoding a kept character gives that character back |
| HtmlEscape.EscapeRoundTrip | src/main/resources/web/js/app.js:1576-1586 | escaping loses nothing: decoding the five entities gives the original text back |
| HtmlEscape.EscapeHtml | src/main/resources/web/js/app.js:1576-1586 | a value that is not a string gives ''; a string gives its character-wise escape, which holds no unsafe character and decodes back to the string |
| ChatColors.HexRewrite | src/main/resources/web/js/app.js:395 | the `&#RRGGBB` rewrite keeps the length of the text |
| ChatColors.HexRewriteChars | src/main/resources/web/js/app.js:395 | the rewrite only turns some '&' into '§'; every other character stays where it was |
| ChatColors.NoAmpersandNoRewrite | src/main/resources/web/js/app.js:395 | a text without '&' is not rewritten |
| ChatColors.RenderSegment | src/main/resources/web/js/app.js:405-444 | an empty segment renders as nothing; a valid '#RRGGBB', a colour code from the table at lines 134-151, 'k', or a format code becomes a span; any other segment is its lower-cased code (or '#') followed by the rest |
| ChatColors.CodesIgnoreCase | src/main/resources/web/js/app.js:423-427 | an upper-case code renders the same as its lower-case form |
| ChatColors.ColorCodeWraps | src/main/resources/web/js/app.js:423-427 | a colour code wraps the text after it in a span of that code's colour |
| ChatColors.PlainTextUnchanged | src/main/resources/web/js/app.js:398-399 | a text with no '§' and no '&' is shown unchanged |
| ChatColors.FirstSegmentVerbatim | src/main/resources/web/js/app.js:401 | the text before the first '§' is copied as it is |
| ChatColors.ConvertMinecraftColors | src/main/resources/web/js/app.js:390-448 | a missing or empty text gives ''; otherwise the result is the rewritten text when it has no '§', else the first segment followed by each later segment rendered in order |
| PlaceholderView.AsWrittenAllGarbled | src/main/resources/web/js/placeholder.js:253-254 | the garbled-text check as written holds for every text, missing or not, because it asks whether the text includes the empty string |
| PlaceholderView.IdentifiersGarbled | src/main/resources/web/js/placeholder.js:242-247 | an empty text, or one that looks like an identifier (a lower-case letter followed by lower-case letters, digits and '_'), counts as garbled |
| PlaceholderView.WideScriptNameReadable | src/main/resources/web/js/placeholder.js:250-258 | a non-empty name made only of characters at U+0100 and above, other than U+FFFD and the one mis-decoded character, is not counted as garbled by the corrected check |
| PlaceholderView.MappedName | src/main/resources/web/js/placeholder.js:294-305 | the name comes from the page's mapping when it has a non-empty entry for the id, else from the static mapping when that has one, else it is the id |
| PlaceholderView.AsWrittenIgnoresOwnName | src/main/resources/web/js/placeholder.js:281-309 | as written, the effective name never is the entry's own name: it is always the mapped name |
| PlaceholderView.EffectiveName | src/main/resources/web/js/placeholder.js:290-305 | an entry's own name is used when it is not garbled and differs from the id; otherwise the mapped name |
| PlaceholderView.OwnNameDiscrepancy | src/main/resources/web/js/placeholder.js:253-254 | for the entry `economy` named in Chinese, as written the page shows `economy`, while the corrected check shows the Chinese name |
| PlaceholderView.NumericChars | src/main/resources/web/js/placeholder.js:451 | stripping keeps only digits, '.' and '-', keeps a text made only of them whole, and empties a text with none |
| PlaceholderView.NumericCharsAppend | src/main/resources/web/js/placeholder.js:451 | stripping works character by character and keeps the order: the result for a concatenation is the results for its parts, in turn |
| PlaceholderView.FormatPart | src/main/resources/web/js/placeholder.js:449-460 | a text with no digits, '.' or '-', or one whose remaining characters are not a number, is returned as it is; otherwise the number is formatted |
| PlaceholderView.FormatNumber | src/main/resources/web/js/placeholder.js:437-460 | a missing value shows '0'; a text without '/' is formatted as one number |
| PlaceholderView.JsTrimKeeps | src/main/resources/web/js/placeholder.js:444 | trimming does not add a character |
| PlaceholderView.RatioPartsIndependent | src/main/resources/web/js/placeholder.js:441-445 | a ratio `a/b/…` is shown as the same number of '/'-separated parts, each the trimmed part formatted on its own, provided formatting never writes '/' |
| PlaceholderView.DisplayValue | src/main/resources/web/js/placeholder.js:346-357 | a missing value, or one that is `%…%` or starts with '$', shows '0'; any other value is formatted |
| PlaceholderView.RawPlaceholderShowsZero | src/main/resources/web/js/placeholder.js:268-273 | an unresolved `%…%` placeholder shows '0' |
| PlaceholderView.InsertPermutes | src/main/resources/web/js/placeholder.js:158-160 | inserting an entry into an ordered list adds exactly that entry |
| PlaceholderView.InsertSorted | src/main/resources/web/js/placeholder.js:158-160 | inserting an entry into a list ordered by priority keeps it ordered |
| PlaceholderView.SortByPriorityCorrect | src/main/resources/web/js/placeholder.js:158-160 | sorting orders the entries by priority, a missing or zero priority counting as 999, and keeps exactly the same entries |
| PlaceholderView.Visible | src/main/resources/web/js/placeholder.js:316 | every entry that remains is enabled |
| PlaceholderView.VisibleCount | src/main/resources/web/js/placeholder.js:171-175 | an enabled entry is kept as often as it occurs and any other entry is dropped |
| PlaceholderView.VisibleSorted | src/main/resources/web/js/placeholder.js:171-175 | dropping the hidden entries keeps a list ordered |
| PlaceholderView.PanelOrder | src/main/resources/web/js/placeholder.js:158-175 | the panel shows exactly the enabled entries, ordered by priority |
| PlaceholderView.RenderedElements | src/main/resources/web/js/placeholder.js:170-187 | the panel has one element per enabled entry, in order, each showing that entry under its name as written or as corrected |
| PlaceholderView.PanelNames | src/main/resources/web/js/placeholder.js:178 | the panel as written shows each entry under its mapped name or its id, never its own name; with the corrected test a readable own name other than the id is shown |
| PlaceholderView.PlaceholderManager.constructor | src/main/resources/web/js/placeholder.js:16-22 | a new panel has no elements and an empty static mapping |
| PlaceholderView.PlaceholderManager.SetStaticNameMapping | src/main/resources/web/js/placeholder.js:42-45 | a loaded mapping becomes the static mapping; a failed load leaves it empty; the elements stay |
| PlaceholderView.PlaceholderManager.ClearCustomPlaceholders | src/main/resources/web/js/placeholder.js:388-400 | the elements are removed when the panel has a container, and left alone without one |
| PlaceholderView.PlaceholderManager.AddCustomPlaceholder | src/main/resources/web/js/placeholder.js:315-380 | an enabled entry appends its element, with icon, shown value and shown name; any other entry adds nothing |
| PlaceholderView.PlaceholderManager.UpdatePlaceholders | src/main/resources/web/js/placeholder.js:137-196 | with no list or no container nothing changes; otherwise the panel becomes the enabled entries, ordered by priority, each under the name `getEffectiveName` gives as written |
| PlayerView.TotalPlayerCount | src/main/resources/web/js/app.js:635-645 | a missing list counts 0 players; otherwise the total is the sum over the entries, where an entry that is missing or has no count adds 0 |
| PlayerView.VisibleServers | src/main/resources/web/js/app.js:498-501 | every server kept has at least one player online |
| PlayerView.VisibleKeepsOnline | src/main/resources/web/js/app.js:498-501 | a server with players is kept as often as it is listed, and any other server is dropped |
| PlayerView.HiddenServersAddNothing | src/main/resources/web/js/app.js:498-506 | when no count is negative, the total over all servers equals the total over the shown ones, so totalling the unfiltered list changes nothing |
| PlayerView.SumAppend | src/main/resources/web/js/app.js:641-644 | the total of two lists put together is the sum of their totals |
| PlayerView.TotalCoversListed | src/main/resources/web/js/app.js:498-506 | when no count is negative, the total is at least the number of servers shown |
| PlayerView.DetectArmorByKeywords | src/main/resources/web/js/app.js:1934-1970 | a non-empty type is detected as a slot exactly when its lower-cased form holds one of that slot's keywords and none of an earlier-checked slot's |
| PlayerView.NoArmorWithoutKeywords | src/main/resources/web/js/app.js:1937-1969 | a non-empty type is no armour exactly when its lower-cased form holds no keyword of any slot |
| PlayerView.HelmetWords | src/main/resources/web/js/app.js:1940-1945 | the helmet keywords are `helmet`, `cap`, `skull` and `head` |
| PlayerView.ChestplateWords | src/main/resources/web/js/app.js:1948-1953 | the chestplate keywords are `chestplate`, `tunic`, `vest` and `chest` |
| PlayerView.LeggingsWords | src/main/resources/web/js/app.js:1956-1960 | the leggings keywords are `leggings`, `pants` and `leg` |
| PlayerView.BootsWords | src/main/resources/web/js/app.js:1963-1967 | the boots keywords are `boots`, `shoes` and `foot` |
| PlayerView.NoTypeNoSlot | src/main/resources/web/js/app.js:1935 | an item without a type, or with an empty one, is not armour |
| PlayerView.DetectIgnoresCase | src/main/resources/web/js/app.js:1937 | two type names that agree apart from letter case are detected alike |
| PlayerView.GridIndex | src/main/resources/web/js/app.js:2088-2105 | each of the 36 grid positions shows an inventory index below 36 |
| PlayerView.GridPosition | src/main/resources/web/js/app.js:2088-2105 | each inventory index below 36 has a grid position below 36 |
| PlayerView.GridBijection | src/main/resources/web/js/app.js:2088-2105 | grid positions and inventory indices correspond one to one: the three main rows show 9-35 and the last row the hotbar 0-8 |
| PlayerView.BuildInventoryGrid | src/main/resources/web/js/app.js:2088-2105 | the nested loops lay out 36 slots, the slot at each position carrying that position's inventory index |
| PlayerView.GridIsPermutation | src/main/resources/web/js/app.js:2088-2105 | the laid-out slots carry every index 0-35 exactly once |
| PlayerView.SlotItem | src/main/resources/web/js/app.js:2108-2118 | a slot shows an item only when the inventory has a drawn item at that slot's index |
| PlayerView.DrawnItemPlaced | src/main/resources/web/js/app.js:2108-2118 | an item that is present, typed and not AIR is drawn in the slot whose index is its own, and in no other |
| PlayerView.CleanInventoryData | src/main/resources/web/js/app.js:2461-2482 | a value that is not an array gives an empty list; otherwise the first 36 entries, or all when there are fewer, in order |
| Placeholders.StringHash | src/main/java/cn/i7mc/playerinfo/model/PlaceholderData.java:77 | the id's string hash is a 32-bit value |
| Placeholders.IdHash | src/main/java/cn/i7mc/playerinfo/model/PlaceholderData.java:77 | `Objects.hash` of one id is a 32-bit value: 31 for a null id, otherwise congruent to 31 plus the id's hash modulo 2^32 |
| Placeholders.PlaceholderData.Blank | src/main/java/cn/i7mc/playerinfo/model/PlaceholderData.java:23-24 | every field holds its Java default: null strings, not enabled, priority 0 |
| Placeholders.PlaceholderData.constructor | src/main/java/cn/i7mc/playerinfo/model/PlaceholderData.java:29-37 | the six given fields are stored, and the value starts as "0" |
| Placeholders.PlaceholderData.ToJsonObject | src/main/java/cn/i7mc/playerinfo/model/PlaceholderData.java:42-51 | the JSON object has exactly the properties id, enabled, icon, placeholder, priority and value, each holding its field, and no name |
| Placeholders.PlaceholderData.CompareTo | src/main/java/cn/i7mc/playerinfo/model/PlaceholderData.java:57-59 | the comparison is -1, 0 or 1, negative exactly when the priority is lower and zero exactly when the priorities are equal |
| Placeholders.PlaceholderData.HashCode | src/main/java/cn/i7mc/playerinfo/model/PlaceholderData.java:76-78 | the hash code is a 32-bit value |
| Placeholders.PlaceholderData.SetId | src/main/java/cn/i7mc/playerinfo/model/PlaceholderData.java:86-88 | the id is replaced and every other field is kept |
| Placeholders.PlaceholderData.SetEnabled | src/main/java/cn/i7mc/playerinfo/model/PlaceholderData.java:94-96 | the enabled flag is replaced and every other field is kept |
| Placeholders.PlaceholderData.SetIcon | src/main/java/cn/i7mc/playerinfo/model/PlaceholderData.java:102-104 | the icon is replaced and every other field is kept |
| Placeholders.PlaceholderData.SetPlaceholder | src/main/java/cn/i7mc/playerinfo/model/PlaceholderData.java:110-112 | the expression is replaced and every other field is kept |
| Placeholders.PlaceholderData.SetName | src/main/java/cn/i7mc/playerinfo/model/PlaceholderData.java:118-120 | the name is replaced and every other field is kept |
| Placeholders.PlaceholderData.SetPriority | src/main/java/cn/i7mc/playerinfo/model/PlaceholderData.java:126-128 | the priority is replaced and every other field is kept |
| Placeholders.PlaceholderData.SetValue | src/main/java/cn/i7mc/playerinfo/model/PlaceholderData.java:134-136 | the value is replaced and every other field is kept |
| Placeholders.CompareAntisymmetric | src/main/java/cn/i7mc/playerinfo/model/PlaceholderData.java:57-59 | comparing the other way round gives the opposite result |
| Placeholders.CompareTransitive | src/main/java/cn/i7mc/playerinfo/model/PlaceholderData.java:57-59 | the order by priority is transitive |
| Placeholders.EqualsIsEquivalence | src/main/java/cn/i7mc/playerinfo/model/PlaceholderData.java:65-70 | equality by id is reflexive, symmetric and transitive |
| Placeholders.EqualsAgreesWithHash | src/main/java/cn/i7mc/playerinfo/model/PlaceholderData.java:65-78 | equal placeholders have equal hash codes |
| Placeholders.OrderIgnoresIdentity | src/main/java/cn/i7mc/playerinfo/model/PlaceholderData.java:57-70 | the order looks only at the priority and equality only at the id, so two placeholders can compare as equal without being equal |
| Sessions.Create | src/main/java/cn/i7mc/playerinfo/auth/SessionManager.java:64-73 | creating a session keeps the two maps holding the same ids |
| Sessions.Lookup | src/main/java/cn/i7mc/playerinfo/auth/SessionManager.java:122-127 | the session data comes back exactly when the validity check admits the id; it is the data stored under that id, and the table changes as it does in the check |
| Sessions.Remove | src/main/java/cn/i7mc/playerinfo/auth/SessionManager.java:133-145 | removing a session keeps the two maps holding the same ids |
| Sessions.Expired | src/main/java/cn/i7mc/playerinfo/auth/SessionManager.java:175-179 | the ids a sweep removes are all ones with a recorded access time |
| Sessions.Sweep | src/main/java/cn/i7mc/playerinfo/auth/SessionManager.java:166-192 | a cleanup pass keeps the two maps holding the same ids |
| Sessions.CheckFrame | src/main/java/cn/i7mc/playerinfo/auth/SessionManager.java:80-115 | a validity check keeps the maps aligned and leaves every other session and its access time alone |
| Sessions.CheckVerdict | src/main/java/cn/i7mc/playerinfo/auth/SessionManager.java:80-115 | a session is valid exactly when the id is given, known to both maps, and was last used less than the timeout ago |
| Sessions.CheckSlides | src/main/java/cn/i7mc/playerinfo/auth/SessionManager.java:99-104 | a successful check resets the timer: a later check succeeds exactly when it comes less than the timeout after this one |
| Sessions.RejectionSticks | src/main/java/cn/i7mc/playerinfo/auth/SessionManager.java:101-111 | once a check refuses a session, every later check refuses it too |
| Sessions.CreateThenCheck | src/main/java/cn/i7mc/playerinfo/auth/SessionManager.java:64-127 | a new session can be looked up, with the user's name and permission, exactly until the timeout has passed |
| Sessions.CreateKeepsOthers | src/main/java/cn/i7mc/playerinfo/auth/SessionManager.java:64-73 | creating a session does not change whether any other session is valid |
| Sessions.RemoveThenCheck | src/main/java/cn/i7mc/playerinfo/auth/SessionManager.java:133-145 | a removed session is no longer valid, and no other session's validity changes |
| Sessions.SweepAgreesWithCheck | src/main/java/cn/i7mc/playerinfo/auth/SessionManager.java:175-183 | the sweep keeps exactly the sessions a check at the same moment would admit, so it never changes a check's verdict |
| Sessions.SweepKeepsSurvivors | src/main/java/cn/i7mc/playerinfo/auth/SessionManager.java:175-183 | the sessions the sweep keeps keep their data and access time |
| Sessions.SessionManager.constructor | src/main/java/cn/i7mc/playerinfo/auth/SessionManager.java:49-51 | a new manager has no sessions, and the timeout is the given minutes in milliseconds |
| Sessions.SessionManager.CreateSession | src/main/java/cn/i7mc/playerinfo/auth/SessionManager.java:64-73 | the new session, with the given id, is stored and last used now; the timeout stays |
| Sessions.SessionManager.IsValidSession | src/main/java/cn/i7mc/playerinfo/auth/SessionManager.java:80-115 | the verdict and the new table are those of the validity check |
| Sessions.SessionManager.GetSessionData | src/main/java/cn/i7mc/playerinfo/auth/SessionManager.java:122-127 | the data and the new table are those of the lookup |
| Sessions.SessionManager.RemoveSession | src/main/java/cn/i7mc/playerinfo/auth/SessionManager.java:133-145 | the table is that of the removal |
| Sessions.SessionManager.SetSessionTimeout | src/main/java/cn/i7mc/playerinfo/auth/SessionManager.java:158-161 | the timeout becomes the given minutes in milliseconds, and the sessions stay |
| Sessions.SessionManager.CleanupPass | src/main/java/cn/i7mc/playerinfo/auth/SessionManager.java:171-192 | the table becomes that of one sweep at the given time |
| Passwords.MalformedRefused | src/main/java/cn/i7mc/playerinfo/auth/PasswordHash.java:69-72 | a stored hash that does not split into exactly two ':'-parts never verifies |
| Passwords.EmptySaltRefused | src/main/java/cn/i7mc/playerinfo/auth/PasswordHash.java:78-96 | a stored hash whose salt decodes to no bytes never verifies, since the key spec refuses an empty salt and the handler answers false |
| Passwords.HashFormat | src/main/java/cn/i7mc/playerinfo/auth/PasswordHash.java:31-53 | a stored hash is the Base64 salt, one ':', and the Base64 derived key |
| Passwords.HashThenVerify | src/main/java/cn/i7mc/playerinfo/auth/PasswordHash.java:31-93 | a password verifies against a hash made from it |
| Passwords.OtherPasswordVerifies | src/main/java/cn/i7mc/playerinfo/auth/PasswordHash.java:66-93 | another password verifies against a stored hash exactly when it derives the same key from the same salt |
| Passwords.OrXorZero | src/main/java/cn/i7mc/playerinfo/auth/PasswordHash.java:90-93 | the accumulated difference stays zero exactly when it was zero and the two bytes are equal |
| Passwords.SlowEquals | src/main/java/cn/i7mc/playerinfo/auth/PasswordHash.java:88-93 | the constant-time comparison answers true exactly when the two keys are equal, after as many steps as the shorter key is long |
| Passwords.VerifyPassword | src/main/java/cn/i7mc/playerinfo/auth/PasswordHash.java:66-98 | verification answers as the specification of a stored hash says: two parts, both decodable, a non-empty salt, and the same derived key |
| Passwords.Check | src/main/java/cn/i7mc/playerinfo/auth/PasswordHash.java:106-108 | `check` answers the same as `verifyPassword` |
| Auth.IntSetting | src/main/java/cn/i7mc/playerinfo/auth/AuthController.java:59-89 | an integer setting is its configured value when that is an `Integer`, and the default when the key is missing or holds anything else |
| Auth.LockoutMillis | src/main/java/cn/i7mc/playerinfo/auth/AuthController.java:740 | for lock durations up to 35791 minutes, the lock lasts that many minutes in milliseconds |
| Auth.AuthenticationEnabled | src/main/java/cn/i7mc/playerinfo/auth/AuthController.java:601-603 | a missing `enabled` key means enabled; a boolean is its value; anything else makes the cast fail |
| Auth.UserIndex | src/main/java/cn/i7mc/playerinfo/auth/AuthController.java:358-372 | the first user whose name equals the given one, or none exactly when no user has that name |
| Auth.StripJsonPunct | src/main/java/cn/i7mc/playerinfo/auth/AuthController.java:313 | removing braces and double quotes leaves none of them, keeps no more characters than before, and leaves a text without them unchanged |
| Auth.PairsOf | src/main/java/cn/i7mc/playerinfo/auth/AuthController.java:316-322 | each field is read on its own as a key and a value |
| Auth.FillSnoc | src/main/java/cn/i7mc/playerinfo/auth/AuthController.java:317-322 | the loop puts one more pair into the map at each step |
| Auth.FillKeys | src/main/java/cn/i7mc/playerinfo/auth/AuthController.java:317-344 | a key is in the parsed credentials exactly when some well-formed pair gives it |
| Auth.FillLast | src/main/java/cn/i7mc/playerinfo/auth/AuthController.java:317-344 | a key takes the value of the last well-formed pair that gives it |
| Auth.FormPair | src/main/java/cn/i7mc/playerinfo/auth/AuthController.java:340-342 | a form field `key=value` whose parts hold no '=' or '&' reads back as that key and value |
| Auth.FormFields | src/main/java/cn/i7mc/playerinfo/auth/AuthController.java:308-338 | a login form is not taken for JSON and splits into its two fields |
| Auth.FillTwo | src/main/java/cn/i7mc/playerinfo/auth/AuthController.java:339-344 | two pairs put in order give the map of both, the second winning a shared key |
| Auth.FormRoundTrip | src/main/java/cn/i7mc/playerinfo/auth/AuthController.java:303-350 | a login form with safe fields parses back to exactly its username and password |
| Auth.Increment | src/main/java/cn/i7mc/playerinfo/auth/AuthController.java:712-715 | the user's failure count goes up by one, the locks and every other user's count stay |
| Auth.Reset | src/main/java/cn/i7mc/playerinfo/auth/AuthController.java:730-733 | the user's count and lock are both removed; every other user's count stays |
| Auth.LockCheck | src/main/java/cn/i7mc/playerinfo/auth/AuthController.java:749-763 | an account is locked exactly when it has a lock that is not yet past; a past lock is removed and the counts are kept |
| Auth.RemainingLockTime | src/main/java/cn/i7mc/playerinfo/auth/AuthController.java:770-782 | no lock or a past lock gives 0; otherwise the whole minutes left plus one, so the time left lies in the last reported minute |
| Auth.StatusOf | src/main/java/cn/i7mc/playerinfo/auth/AuthController.java:201-295 | a granted login answers 200; a locked, unknown, wrong-password or newly locked one 401 |
| Auth.Render | src/main/java/cn/i7mc/playerinfo/auth/AuthController.java:237-295 | the response carries the answer's status, and a session id and cookie exactly when the login is granted |
| Auth.MissingCredentialsFirst | src/main/java/cn/i7mc/playerinfo/auth/AuthController.java:230-233 | a POST missing the username or the password is answered 400 before any lockout check, and nothing changes |
| Auth.LockedAttemptRefused | src/main/java/cn/i7mc/playerinfo/auth/AuthController.java:237-241 | while a lock holds, every attempt is refused with the minutes left, and nothing changes |
| Auth.UnknownUserNotCounted | src/main/java/cn/i7mc/playerinfo/auth/AuthController.java:246-251 | an unknown name is refused and no failure is counted |
| Auth.WrongPasswordCounted | src/main/java/cn/i7mc/playerinfo/auth/AuthController.java:262-278 | a wrong password for a known, unlocked user counts one more failure, and locks the account for the configured duration exactly when the count reaches the maximum |
| Auth.ExpiredLockRelocks | src/main/java/cn/i7mc/playerinfo/auth/AuthController.java:749-763 | the count survives a lock's expiry, so after it one more wrong password locks the account again |
| Auth.RightPasswordGranted | src/main/java/cn/i7mc/playerinfo/auth/AuthController.java:282-295 | the right password clears the count and the lock and grants the user's permission: "view" when the key is missing, null when it holds null |
| Auth.AttemptTouchesOnlyItsUser | src/main/java/cn/i7mc/playerinfo/auth/AuthController.java:201-295 | a login attempt changes no other user's count or lock |
| Auth.StepsConsistent | src/main/java/cn/i7mc/playerinfo/auth/AuthController.java:712-763 | each lockout step keeps every lock belonging to a counted user and only known users counted |
| Auth.AttemptShape | src/main/java/cn/i7mc/playerinfo/auth/AuthController.java:237-282 | the lockout state after an attempt is the lock check's, or that followed by a reset, an increment, or an increment and a lock |
| Auth.AttemptConsistent | src/main/java/cn/i7mc/playerinfo/auth/AuthController.java:201-295 | every login attempt keeps the lockout state consistent with the user list |
| Auth.FirstSessionIsFirst | src/main/java/cn/i7mc/playerinfo/auth/AuthController.java:458-463 | the first pair that names a session decides the id |
| Auth.FirstSessionAbsent | src/main/java/cn/i7mc/playerinfo/auth/AuthController.java:458-463 | no id is found exactly when no pair names a session |
| Auth.CookieSessionIsLast | src/main/java/cn/i7mc/playerinfo/auth/AuthController.java:456-465 | the `break` leaves only the inner loop, so among several `Cookie` headers the last one that names a session decides |
| Auth.RequestSession | src/main/java/cn/i7mc/playerinfo/auth/AuthController.java:450-487 | the cookie's session id is used when there is one, and the query's otherwise |
| Auth.CookieRoundTrip | src/main/java/cn/i7mc/playerinfo/auth/AuthController.java:293-461 | the cookie a browser sends back after a login yields the issued id |
| Auth.FindSession | src/main/java/cn/i7mc/playerinfo/auth/AuthController.java:458-463 | the loop with `break` finds the first pair that names a session |
| Auth.FindCookieSession | src/main/java/cn/i7mc/playerinfo/auth/AuthController.java:454-466 | the nested loops find the session id of the last header that carries one |
| Auth.AuthController.constructor | src/main/java/cn/i7mc/playerinfo/auth/AuthController.java:36-51 | the settings and the users come from the config file, empty when a section is missing; no failures or locks; a new session manager with the configured timeout in milliseconds |
| Auth.AuthController.IncrementFailureCount | src/main/java/cn/i7mc/playerinfo/auth/AuthController.java:712-715 | the lockout state becomes that of one more failure |
| Auth.AuthController.ResetFailureCount | src/main/java/cn/i7mc/playerinfo/auth/AuthController.java:730-733 | the lockout state becomes that of the reset |
| Auth.AuthController.LockAccount | src/main/java/cn/i7mc/playerinfo/auth/AuthController.java:739-742 | the account is locked until the configured duration from now |
| Auth.AuthController.IsAccountLocked | src/main/java/cn/i7mc/playerinfo/auth/AuthController.java:749-763 | the answer and the new lockout state are those of the lock check |
| Auth.AuthController.ParseCredentials | src/main/java/cn/i7mc/playerinfo/auth/AuthController.java:303-350 | the loop builds exactly the credentials the parser specifies |
| Auth.AuthController.HandleLogin | src/main/java/cn/i7mc/playerinfo/auth/AuthController.java:201-296 | the answer and the new lockout state are those of the login decision; a granted login creates exactly one session for the user with the fresh id, and any other answer leaves the sessions alone |
| Auth.AuthController.Login | src/main/java/cn/i7mc/playerinfo/auth/AuthController.java:554-575 | a session is created exactly when the user exists and the password matches; no lockout is consulted |
| Auth.AuthController.Logout | src/main/java/cn/i7mc/playerinfo/auth/AuthController.java:581-585 | the given session is removed; a null id changes nothing |
| Auth.AuthController.IsValidSession | src/main/java/cn/i7mc/playerinfo/auth/AuthController.java:593-595 | the answer and the new session table are those of the session check |
| Auth.AuthController.ValidateSession | src/main/java/cn/i7mc/playerinfo/auth/AuthController.java:450-490 | the request's session id, from the cookies or else the query, is checked |
| Auth.AuthController.HandleCheckSession | src/main/java/cn/i7mc/playerinfo/auth/AuthController.java:610-626 | the answer is logged in, with the session's user and permission, exactly when the lookup finds the session |
| Auth.AuthController.HandleLogout | src/main/java/cn/i7mc/playerinfo/auth/AuthController.java:633-660 | the cookie's session is removed and the cookie is cleared |
| Auth.AuthController.Reload | src/main/java/cn/i7mc/playerinfo/auth/AuthController.java:673-705 | a section present in the reloaded file replaces the old one; a new authentication section also resets the session timeout; failures, locks and sessions stay |
| Auth.GrantedPermission | src/main/java/cn/i7mc/playerinfo/auth/AuthController.java:285 | `getOrDefault("permission", "view")` gives "view" for a missing key, null for a key holding null, and the text otherwise |
| WebRouting.Extension | src/main/java/cn/i7mc/playerinfo/bungee/web/BungeeWebServer.java:263-265 | there is an extension exactly when the last '.' exists and is not the first character |
| WebRouting.ContentType | src/main/java/cn/i7mc/playerinfo/bungee/web/BungeeWebServer.java:262-272 | the content type is one of the table's types or `application/octet-stream`, and a table type only for an extension the table has |
| WebRouting.LastDot | src/main/java/cn/i7mc/playerinfo/bungee/web/BungeeWebServer.java:263 | in `stem.ext` with no dot in `ext`, the last dot is the one before `ext` |
| WebRouting.ContentTypeOfExtension | src/main/java/cn/i7mc/playerinfo/bungee/web/BungeeWebServer.java:38-49 | a file `stem.ext` with a non-empty stem gets the type of its extension in any letter case, and `application/octet-stream` for an extension the table lacks |
| WebRouting.NoExtensionIsOctetStream | src/main/java/cn/i7mc/playerinfo/bungee/web/BungeeWebServer.java:263-271 | a name with no dot, or whose only dot is its first character, is served as `application/octet-stream` |
| WebRouting.Contexts | src/main/java/cn/i7mc/playerinfo/bungee/web/BungeeWebServer.java:98-118 | the login API contexts are registered exactly when an auth controller is set |
| WebRouting.Longest | src/main/java/cn/i7mc/playerinfo/bungee/web/BungeeWebServer.java:98-118 | the context chosen is one whose path prefixes the request, the longest such, and none exactly when no context path prefixes it |
| WebRouting.LoginApiOnlyUnderItsPrefix | src/main/java/cn/i7mc/playerinfo/bungee/web/BungeeWebServer.java:98-102 | the login API is reached only under `/api/auth/`, and only when an auth controller is set |
| WebRouting.DataApiOnlyUnderItsPaths | src/main/java/cn/i7mc/playerinfo/bungee/web/BungeeWebServer.java:116-118 | the data API is reached only under `/api/players`, `/api/servers` and `/api/player/` |
| WebRouting.StaticRoute | src/main/java/cn/i7mc/playerinfo/bungee/web/BungeeWebServer.java:155-181 | the static handler sends a request to the login page exactly when it is guarded, the path (with "/" read as the index page) needs a session, and the request has no valid one |
| WebRouting.RootServesIndex | src/main/java/cn/i7mc/playerinfo/bungee/web/BungeeWebServer.java:158-159 | the root serves the index page to whoever may see it |
| WebRouting.ServesWithoutLeadingSlash | src/main/java/cn/i7mc/playerinfo/bungee/web/BungeeWebServer.java:186-187 | the resource served for `/x` is `x` |
| WebRouting.ImageDirectoriesDiffer | src/main/java/cn/i7mc/playerinfo/bungee/web/BungeeWebServer.java:166-170 | `/images/` is public for the filter but needs a session in the static handler, and `/img/` never needs one there |
| WebRouting.HandleStatic | src/main/java/cn/i7mc/playerinfo/bungee/web/BungeeWebServer.java:154-188 | without an auth controller the path is served unguarded; with one, a path that needs a session is checked with the first `Cookie` header's id, and the session table changes only then |
| WebRouting.FirstParamIsFirst | src/main/java/cn/i7mc/playerinfo/bungee/web/BungeeWebServer.java:398-404 | the first matching `name=value` pair decides, even when its value does not decode |
| WebRouting.FirstParamAbsent | src/main/java/cn/i7mc/playerinfo/bungee/web/BungeeWebServer.java:398-410 | without a matching pair there is no value |
| WebRouting.QueryParameterRoundTrip | src/main/java/cn/i7mc/playerinfo/bungee/web/BungeeWebServer.java:391-410 | a query `name=value` yields the decoded value |
| WebRouting.EmptyValueIsAbsent | src/main/java/cn/i7mc/playerinfo/bungee/web/BungeeWebServer.java:399-400 | an empty value `name=` counts as no parameter, because the split drops the empty field |
| WebRouting.GetQueryParameter | src/main/java/cn/i7mc/playerinfo/bungee/web/BungeeWebServer.java:391-411 | the loop finds the same value as the specification of the lookup |
| WebRouting.OnlyGetReadsData | src/main/java/cn/i7mc/playerinfo/bungee/web/BungeeWebServer.java:287-377 | controller data is read only by GET requests with a controller set |
| WebRouting.PlayersByServerParameter | src/main/java/cn/i7mc/playerinfo/bungee/web/BungeeWebServer.java:344-354 | `/api/players` lists the servers without a `server` parameter, and that server's players with one |
| WebRouting.DetailsNeedBoth | src/main/java/cn/i7mc/playerinfo/bungee/web/BungeeWebServer.java:358-370 | player details need both a `server` parameter and a non-empty decoded name |
| WebRouting.HandleApi | src/main/java/cn/i7mc/playerinfo/bungee/web/BungeeWebServer.java:280-386 | the answer is the data API's routing decision; a GET of the players or servers list, when the listener is reached, first sends a refresh to every server with players and then drops data older than a minute; no other request changes the store or the listener |
| WebRouting.AuthRoute | src/main/java/cn/i7mc/playerinfo/bungee/web/BungeeWebServer.java:446-489 | a login goes only to a POST and a session check only to a GET |
| WebRouting.OlderAuthPathsUnreachable | src/main/java/cn/i7mc/playerinfo/bungee/web/BungeeWebServer.java:98-102 | the older `/api/login`, `/api/logout` and `/api/session` paths never reach the handler, so login and session checks come only from their `/api/auth/` paths |
| WebAuth.IsPublicPath | src/main/java/cn/i7mc/playerinfo/web/WebAuthFilter.java:88-102 | a path is public exactly when it is one of the listed paths, or starts with a listed path that ends with '/' |
| WebAuth.ImagesArePublic | src/main/java/cn/i7mc/playerinfo/web/WebAuthFilter.java:34-97 | every path under `/images/` is public |
| WebAuth.LoginPageIsPublic | src/main/java/cn/i7mc/playerinfo/web/WebAuthFilter.java:29-91 | the login page is public |
| WebAuth.CookieValue | src/main/java/cn/i7mc/playerinfo/web/WebAuthFilter.java:114-116 | a cookie pair yields a value exactly when, trimmed, it starts with `session=`, and the value is the rest |
| WebAuth.FirstCookieValueIsFirst | src/main/java/cn/i7mc/playerinfo/web/WebAuthFilter.java:113-120 | no id is found exactly when no pair carries one; otherwise it is the first pair that does |
| WebAuth.GetSessionId | src/main/java/cn/i7mc/playerinfo/web/WebAuthFilter.java:109-121 | no `Cookie` header gives no id; otherwise the loop finds the first pair's id |
| WebAuth.FilterReadsLoginCookie | src/main/java/cn/i7mc/playerinfo/web/WebAuthFilter.java:109-121 | the cookie set at login is read back as the issued id, the same id the login controller reads |
| WebAuth.FilterReadsFirstHeaderOnly | src/main/java/cn/i7mc/playerinfo/web/WebAuthFilter.java:111 | the filter reads only the first `Cookie` header, so a session carried only by a later one is missed by the filter but found by the login controller |
| WebAuth.Refusal | src/main/java/cn/i7mc/playerinfo/web/WebAuthFilter.java:61-78 | an API path is refused with 401; any other path is redirected to the login page, with a `redirect` parameter except for "/" and the index page |
| WebAuth.DisabledPassesAll | src/main/java/cn/i7mc/playerinfo/web/WebAuthFilter.java:41-44 | with authentication disabled every request passes |
| WebAuth.PublicPassesWithoutSession | src/main/java/cn/i7mc/playerinfo/web/WebAuthFilter.java:50-53 | a public path passes without a session |
| WebAuth.RefusalByKind | src/main/java/cn/i7mc/playerinfo/web/WebAuthFilter.java:56-78 | a refused request gets 401 on an API path and a redirect elsewhere |
| WebAuth.ProtectedNeedsSession | src/main/java/cn/i7mc/playerinfo/web/WebAuthFilter.java:56-59 | with authentication enabled, a protected path passes exactly when the request has a valid session |
| WebAuth.WebAuthFilter.constructor | src/main/java/cn/i7mc/playerinfo/web/WebAuthFilter.java:24-36 | the filter keeps the given auth controller |
| WebAuth.WebAuthFilter.IsAuthenticated | src/main/java/cn/i7mc/playerinfo/web/WebAuthFilter.java:128-148 | the answer and the new session table are those of checking the first `Cookie` header's session id |
| WebAuth.WebAuthFilter.DoFilter | src/main/java/cn/i7mc/playerinfo/web/WebAuthFilter.java:39-80 | the outcome is the filter's decision on the path and the session check; the session table changes only when the check is consulted, for an enabled filter on a protected path |
| Serializer.ItemMap | src/main/java/cn/i7mc/playerinfo/util/ItemStackSerializer.java:97-122 | an item's map always has its type, amount and durability; it has the display name exactly when one was read, even if reading the meta failed after it; it has the lore exactly when the meta was read whole with a lore; it has `meta_error`, the source's prefix before the exception's message, exactly when reading the meta failed; no other key |
| Serializer.SerializeItem | src/main/java/cn/i7mc/playerinfo/util/ItemStackSerializer.java:88-122 | an empty or air slot gives nothing, an item gives its map, and an item whose amount or durability cannot be read raises with its type name |
| Serializer.Entry | src/main/java/cn/i7mc/playerinfo/util/ItemStackSerializer.java:70-82 | a dropped slot contributes nothing; an item its map; an item whose amount or durability read throws one error marker with the source's error text and its type |
| Serializer.SerializedAppend | src/main/java/cn/i7mc/playerinfo/util/ItemStackSerializer.java:70-83 | serializing slots one after the other keeps their order |
| Serializer.SerializedLength | src/main/java/cn/i7mc/playerinfo/util/ItemStackSerializer.java:67-85 | the list has one entry per slot that is neither empty nor air; a failing item leaves an error marker in its place |
| Serializer.SerializedSingle | src/main/java/cn/i7mc/playerinfo/util/ItemStackSerializer.java:72-81 | a single slot serializes to its own entry |
| Serializer.EntriesHaveType | src/main/java/cn/i7mc/playerinfo/util/ItemStackSerializer.java:72-81 | every entry names a type, whether an item's map or an error marker |
| Serializer.SerializeItems | src/main/java/cn/i7mc/playerinfo/util/ItemStackSerializer.java:67-86 | a null array gives the empty list; otherwise the loop builds the entries of the slots in order |
| Serializer.LocationMap | src/main/java/cn/i7mc/playerinfo/util/ItemStackSerializer.java:43-61 | a readable location has exactly x, y, z, world, yaw and pitch; an unreadable one only an error, the source's prefix before the exception's message |
| Serializer.Identity | src/main/java/cn/i7mc/playerinfo/util/ItemStackSerializer.java:13-22 | the name is always present, and the uuid and skin URL exactly when the snapshot has them |
| Serializer.Snapshot | src/main/java/cn/i7mc/playerinfo/util/ItemStackSerializer.java:11-64 | the armour and inventory are their serialized lists, the hands their items or null, and the keys are the fixed ones plus the optional ones present |
| Serializer.Serialize | src/main/java/cn/i7mc/playerinfo/util/ItemStackSerializer.java:11-64 | serializing fails exactly when a hand item cannot be read; otherwise the keys are the fixed ones plus those present, the lists are the serialized slots, and a hand is null exactly when it is empty or air |

The rows above state the properties of these specification functions, which carry little or no contract of their own:

- `Wire.EncodePlayerData`: src/main/java/cn/i7mc/playerinfo/messaging/MessageSender.java:97-152. Its rows are Wire.EncodePlayerDataOutcome, SmallPayloadLayout, LargePayloadLayout, FlagByte, PlayerDataRoundTrip, TruncatedPlayerDataFails and Sender.BuildPlayerData.
- `Wire.Decode`: src/main/java/cn/i7mc/playerinfo/bungee/messaging/MessageListener.java:82-163. Its rows are Wire.DispatchPlayerData, DispatchPlayerRemove, DispatchServerInfo, the three round trips, the Truncated lemmas, DecodeFailsOnTag and RemoveFailsOnUuid.
- `PlayerView.DetectArmorType`: src/main/resources/web/js/app.js:1934-1970. Its rows are PlayerView.DetectArmorByKeywords, NoArmorWithoutKeywords, NoTypeNoSlot and DetectIgnoresCase.
- `PlaceholderView.IsUnresolved`: src/main/resources/web/js/placeholder.js:268-273. Its rows are PlaceholderView.DisplayValue and RawPlaceholderShowsZero.
- `PlaceholderView.IsGarbledAsWritten`: src/main/resources/web/js/placeholder.js:241-261. Its row is PlaceholderView.AsWrittenAllGarbled.
- `PlaceholderView.EffectiveNameAsWritten`: src/main/resources/web/js/placeholder.js:281-309. Its rows are PlaceholderView.AsWrittenIgnoresOwnName, OwnNameDiscrepancy, PanelNames and PlaceholderManager.UpdatePlaceholders.
- `PlaceholderView.SortByPriority`: src/main/resources/web/js/placeholder.js:158-160. Its rows are PlaceholderView.SortByPriorityCorrect and PanelOrder.
- `WebRouting.Route`: src/main/java/cn/i7mc/playerinfo/bungee/web/BungeeWebServer.java:98-118. Its rows are WebRouting.Longest, LoginApiOnlyUnderItsPrefix and DataApiOnlyUnderItsPaths.
- `WebRouting.ApiRoute`: src/main/java/cn/i7mc/playerinfo/bungee/web/BungeeWebServer.java:280-386. Its rows are WebRouting.OnlyGetReadsData, PlayersByServerParameter, DetailsNeedBoth and HandleApi.
- `WebRouting.QueryParameter`: src/main/java/cn/i7mc/playerinfo/bungee/web/BungeeWebServer.java:391-411. Its rows are WebRouting.FirstParamIsFirst, FirstParamAbsent, QueryParameterRoundTrip, EmptyValueIsAbsent and GetQueryParameter.
- `WebAuth.Decide`: src/main/java/cn/i7mc/playerinfo/web/WebAuthFilter.java:39-81. Its rows are WebAuth.DisabledPassesAll, PublicPassesWithoutSession, RefusalByKind, ProtectedNeedsSession and WebAuthFilter.DoFilter.
- `Auth.Attempt`: src/main/java/cn/i7mc/playerinfo/auth/AuthController.java:201-296. Its rows are Auth.MissingCredentialsFirst, LockedAttemptRefused, UnknownUserNotCounted, WrongPasswordCounted, ExpiredLockRelocks, RightPasswordGranted, AttemptTouchesOnlyItsUser, AttemptShape, AttemptConsistent and AuthController.HandleLogin.
- `Sessions.Check`: src/main/java/cn/i7mc/playerinfo/auth/SessionManager.java:80-115. Its rows are Sessions.CheckFrame, CheckVerdict, CheckSlides, RejectionSticks, CreateThenCheck, RemoveThenCheck, SweepAgreesWithCheck and SessionManager.IsValidSession.
- `Passwords.Verifies`: src/main/java/cn/i7mc/playerinfo/auth/PasswordHash.java:66-98. Its rows are Passwords.MalformedRefused, EmptySaltRefused, HashThenVerify, OtherPasswordVerifies, VerifyPassword and Check.
- `Uuids.ParseHexLong`: the `Long.parseLong(group, 16)` inside the `UUID.fromString` call at src/main/java/cn/i7mc/playerinfo/bungee/messaging/MessageListener.java:138. Its contract gives only the range and the empty cases; its rows are Uuids.FromString, LeadingZeroParses and FromToString.
- `Store.PlayerCount`: src/main/java/cn/i7mc/playerinfo/bungee/controller/BungeePlayerController.java:160-168. Its row is Store.BungeePlayerController.HandleServerListWithPlayerCount.

## Left out

- GZIP (`CompressionUtil.compress`/`decompress`) is the `Gzip` parameter of `Wire`. Its `Lawful` predicate requires only that decompressing a compressed non-empty array gives it back and that the empty array maps to itself. Stream framing, buffer sizes and I/O exceptions are not modelled.
- PBKDF2 (`PBEKeySpec`/`SecretKeyFactory`) and Base64 form the `Crypto` parameter of `Passwords`, and `SecureRandom` is the salt passed to `HashPassword`. The model states only that the derived key has 32 bytes, that Base64 decoding inverts encoding, and that encoded text holds no ':' and is empty only for no bytes.
- `UUID.randomUUID` for session ids is the `freshId` parameter. The model does not require the id to be new, and a colliding id overwrites the older session, as `put` would.
- `System.currentTimeMillis` is the `now` parameter of every timed operation.
- The model has no concurrency: `ConcurrentHashMap` and `volatile` semantics, the session cleanup daemon thread and the Bukkit/BungeeCord schedulers are all left out. Operations run one at a time, and one pass of the cleanup thread is `Sessions.SessionManager.CleanupPass`.
- Writing HTTP responses (headers, status codes, streams), serving files from the JAR and the plugin folder, and the 404 page are not modelled. The static-file handler is modelled up to the resource name it would open.
- Reading and saving `auth.yml` and `config.yml` are file I/O and are left out (`loadConfig`, `ensureConfigFile`, `createDefaultConfig`, `saveConfig`). The loaded configuration is a map from keys to `Value`. `getUsersList` only logs, so it is left out too.
- Gson is the `Parser` parameter of `Json`. Its lenient parsing and its number handling are not modelled.
- The iteration order of a `HashMap` or `ConcurrentHashMap` is an `order` parameter. Listing functions state their result for any order without duplicates.
- Serializer.SerializeItems: a slot whose type cannot be read is not modelled. The error handler reads the type again (src/main/java/cn/i7mc/playerinfo/util/ItemStackSerializer.java:80), so that exception escapes `serializeItems` and `serialize`; the model's `Throwing` slot covers only a failing amount or durability read.
- Java `double` and JavaScript numbers are reals or integers. Rounding of floating point and `Intl.NumberFormat` (the `format` parameter) are not modelled. JavaScript truthiness covers only missing values, booleans and empty strings.
- `toLowerCase`/`toUpperCase` map only ASCII letters (`Text.Lower`). Locale-specific and non-ASCII case mappings are not modelled.
- Java strings are sequences of UTF-16 units, while a Dafny `string` is a sequence of Unicode scalar values. A string holding an unpaired surrogate has no form in the model: decoding such units gives None.
- The page's DOM code is not modelled: `init`, the scroll and tooltip handlers (`setupScrollListener`, `checkScrollPosition`, `showScrollTip`, `checkForScrollbar`), element creation and event listeners. `skinViewer.js` and `auth.js` are also not part of this model.
- `tryFixGarbledText` in `placeholder.js` is never called and always gives null, so it is not modelled.
- `handleServerList` in `BungeePlayerController` serves the server list to the web API. Its JSON rendering is not part of this model.
- The reflection chain by which a refresh reaches the proxy's listener (`getPlugin`, `getMessageListener`, `requestDataRefresh` looked up by name) is not modelled. Its outcome is the `listener` parameter of `WebRouting.HandleApi`, null when a step yields null or throws.
- Platform glue (plugin enable/disable, command handlers, event registration, bStats) is not modelled.
- PlaceholderView.MappedName: JavaScript objects are modelled as maps without inherited properties. An id that names an `Object.prototype` member (`toString`, `constructor`, `valueOf`, `hasOwnProperty`, `__proto__`, …) and has no mapping finds that inherited member, which is truthy, so the page shows its text; the model shows the id. The same holds for `EffectiveNameAsWritten`, `EffectiveName` and the panel built from them.
- ItemTables.Lookup: the icon and translation tables are JavaScript objects too (src/main/resources/web/js/app.js:352-379), modelled as maps without inherited properties; a type name such as `constructor` would find an `Object.prototype` member there, which upper-case Material names never do. The same holds for `ItemTableSet.TranslateItemName` and `ItemTableSet.GetItemIconUrl`.
- PlaceholderView.SortByPriorityCorrect: states that the result is sorted and a permutation. It does not state that ties keep their input order, as the stable `Array.prototype.sort` does.
- Passwords.SlowEquals: the initial `hash.length ^ testHash.length` is kept as 0 or 1, since only whether it is zero reaches the result.
- Auth.LockoutMillis: the product is wrapped to 32 bits as in the source. The result is stated as the plain product only for durations from 0 to 35791 minutes.
- Placeholders.PlaceholderData.HashCode: its contract states only the 32-bit range. That it depends on the id alone is its definition through `IdHash`.
- Placeholders.StringHash: its contract states only the 32-bit range. The `31 * h + c` recurrence with wrap-around is its definition.
- Placeholders.StringHash: it hashes Unicode scalar values, while Java hashes UTF-16 units. For a character above U+FFFF, Java hashes its two surrogate units, so the two results differ.
- DataIO.DecodeUtf8: it puts one U+FFFD for every byte that does not start a well-formed sequence. Java's decoder puts one U+FFFD per maximal ill-formed subpart, so a truncated two- or three-byte prefix such as `E2 82` followed by ASCII yields one U+FFFD in Java and two in the model. Well-formed input decodes the same in both.
- Uuids.FromString: hexadecimal digits are the ASCII ones only. `Character.digit` also accepts other Unicode digits (the fullwidth forms, for example), which the model rejects. The split-based parser of JDK 8 and earlier is not modelled.
- Text.JavaSplit: its contract characterises the fields (none holds the separator, joined they are a prefix of the input followed only by separators, the last is not empty) but does not state outright that they are the maximal separator-free runs. `Text.JavaSplitTwo` and `Text.FieldsOfJoin` state the exact result for the shapes the model splits.
- Auth.UserIndex: a user entry whose `username` is present but not a string (a number, say, as YAML reads `123`) makes `findUser` throw `ClassCastException`. The model takes every username to be text or null.
- Auth.AuthController.HandleLogin: a `password` or `permission` that is not a string makes the source throw `ClassCastException` out of the handler, with no response written. The model takes these entries to be text, null or missing, and models a present null permission apart from a missing one.
- Auth.AuthController.Login: the same casts of `password` and `permission` as in `handleLogin` are taken to succeed.

## Findings

| source | as written | input that shows it | evidently intended | confidence | as-written member | corrected member |
|---|---|---|---|---|---|---|
| src/main/resources/web/js/placeholder.js:253-254 | `isGarbledText` tests `text.includes('')` with empty strings where mis-decoded characters were meant. Every text includes the empty string, so every name counts as garbled and `getEffectiveName` never shows the placeholder's own name. | a placeholder with id `economy`, name `金币`, and no name mapping: the panel shows `economy`. This server never sends `name` (PlaceholderData.toJsonObject, src/main/java/cn/i7mc/playerinfo/model/PlaceholderData.java:42-51), so the discrepancy shows only with entries from another data source | only texts containing the mis-decoded characters (or otherwise unreadable) count as garbled, so a readable own name is shown | not executed | PlaceholderView.AsWrittenIgnoresOwnName, PlaceholderView.OwnNameDiscrepancy, PlaceholderView.PanelNames | PlaceholderView.EffectiveName, PlaceholderView.WideScriptNameReadable |
