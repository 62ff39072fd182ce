/**
 * `ItemStackSerializer`: the map a backend builds from a player snapshot before it is
 * turned into JSON. Items are abstract records of what the serializer reads from them;
 * floating-point values are carried as reals and never inspected.
 */
module Serializer {
  import opened Wrappers

  /** The values the serializer puts into its maps. */
  datatype Value =
    | Str(s: string)
    | Int(i: int)
    | Num(r: real)
    | List(elements: seq<Value>)
    | Strings(lines: seq<string>)
    | Obj(fields: map<string, Value>)
    | Null

  /**
   * What reading an item's meta yields: nothing, a meta, or an exception with its message.
   * The display name is read first, so a meta whose lore read throws still carries the name
   * that was read before the exception (None when the meta, or its name, could not be read).
   */
  datatype MetaRead =
    | NoMeta
    | Meta(displayName: Option<string>, lore: Option<seq<string>>)
    | MetaFails(displayName: Option<string>, message: string)

  /** An item stack as the serializer reads it. */
  datatype Item = Item(typeName: string, amount: int, durability: int, meta: MetaRead)

  /**
   * An array slot: empty, an item, or an item whose amount or durability cannot be read
   * while its type can (the type name is what the error handler reads back).
   */
  datatype Slot = Empty | Stack(item: Item) | Throwing(typeName: string)

  const AirType: string := "A" + "IR"
  /** "Cannot serialize item metadata: ", before the exception's message. */
  const MetaErrorPrefix: string := "\U{65E0}\U{6CD5}\U{5E8F}\U{5217}\U{5316}\U{7269}\U{54C1}\U{5143}\U{6570}\U{636E}: "
  /** "Serializing the item failed". */
  const ItemErrorText: string := "\U{5E8F}\U{5217}\U{5316}\U{7269}\U{54C1}\U{5931}\U{8D25}"
  /** "Cannot serialize location information: ", before the exception's message. */
  const LocationErrorPrefix: string := "\U{65E0}\U{6CD5}\U{5E8F}\U{5217}\U{5316}\U{4F4D}\U{7F6E}\U{4FE1}\U{606F}: "

  /** Whether the serializer writes nothing for this slot. */
  predicate Dropped(slot: Slot) {
    slot.Empty? || (slot.Stack? && slot.item.typeName == AirType)
  }

  /** The map of one real item: type, amount and durability always; the meta's parts when present. */
  function ItemMap(item: Item): (m: map<string, Value>)
    ensures {"type", "amount", "durability"} <= m.Keys
    ensures m["type"] == Str(item.typeName) && m["amount"] == Int(item.amount) && m["durability"] == Int(item.durability)
    ensures "name" in m <==> !item.meta.NoMeta? && item.meta.displayName.Some?
    ensures "lore" in m <==> item.meta.Meta? && item.meta.lore.Some?
    ensures "meta_error" in m <==> item.meta.MetaFails?
    ensures m.Keys <= {"type", "amount", "durability", "name", "lore", "meta_error"}
    ensures "name" in m ==> m["name"] == Str(item.meta.displayName.value)
    ensures "lore" in m ==> m["lore"] == Strings(item.meta.lore.value)
    ensures "meta_error" in m ==> m["meta_error"] == Str(MetaErrorPrefix + item.meta.message)
  {
    var base := map["type" := Str(item.typeName), "amount" := Int(item.amount), "durability" := Int(item.durability)];
    match item.meta
    case NoMeta => base
    case MetaFails(name, msg) =>
      var withName := if name.Some? then base["name" := Str(name.value)] else base;
      withName["meta_error" := Str(MetaErrorPrefix + msg)]
    case Meta(name, lore) =>
      var withName := if name.Some? then base["name" := Str(name.value)] else base;
      if lore.Some? then withName["lore" := Strings(lore.value)] else withName
  }

  /**
   * `serializeItem`: nothing for an empty or air slot, the item's map otherwise; an item
   * that cannot be read raises (Err with its type name).
   */
  function SerializeItem(slot: Slot): (r: Result<Option<map<string, Value>>, string>)
    ensures r.Err? <==> slot.Throwing?
    ensures r.Ok? ==> (r.value.None? <==> Dropped(slot))
    ensures r.Ok? && r.value.Some? ==> r.value.value == ItemMap(slot.item)
  {
    match slot
    case Empty => Ok(None)
    case Throwing(t) => Err(t)
    case Stack(item) => if item.typeName == AirType then Ok(None) else Ok(Some(ItemMap(item)))
  }

  /** The error marker a throwing item leaves in a list, carrying its type. */
  function ErrorMarker(typeName: string): map<string, Value> {
    map["error" := Str(ItemErrorText), "type" := Str(typeName)]
  }

  /** What one slot contributes to a serialized list: nothing, its map, or an error marker. */
  function Entry(slot: Slot): (r: seq<Value>)
    ensures |r| == (if Dropped(slot) then 0 else 1)
    ensures slot.Throwing? ==> r == [Obj(map["error" := Str(ItemErrorText), "type" := Str(slot.typeName)])]
    ensures slot.Stack? && !Dropped(slot) ==> r == [Obj(ItemMap(slot.item))]
  {
    match SerializeItem(slot)
    case Err(t) => [Obj(ErrorMarker(t))]
    case Ok(None) => []
    case Ok(Some(m)) => [Obj(m)]
  }

  /** The list `serializeItems` builds: the entries of the slots, in order. */
  function Serialized(slots: seq<Slot>): seq<Value>
    decreases |slots|
  {
    if |slots| == 0 then [] else Serialized(slots[..|slots| - 1]) + Entry(slots[|slots| - 1])
  }

  /** The number of slots that are not dropped. */
  function Kept(slots: seq<Slot>): nat
    decreases |slots|
  {
    if |slots| == 0 then 0 else Kept(slots[..|slots| - 1]) + (if Dropped(slots[|slots| - 1]) then 0 else 1)
  }

  /** Serializing a concatenation serializes each part in turn: the order of slots is kept. */
  lemma {:induction false} SerializedAppend(a: seq<Slot>, b: seq<Slot>)
    ensures Serialized(a + b) == Serialized(a) + Serialized(b)
    decreases |b|
  {
    if |b| > 0 {
      var b' := b[..|b| - 1];
      assert (a + b)[..|a + b| - 1] == a + b';
      assert (a + b)[|a + b| - 1] == b[|b| - 1];
      SerializedAppend(a, b');
    } else {
      assert a + b == a;
    }
  }

  /** One entry per slot that is neither empty nor air. */
  lemma {:induction false} SerializedLength(slots: seq<Slot>)
    ensures |Serialized(slots)| == Kept(slots)
    decreases |slots|
  {
    if |slots| > 0 {
      SerializedLength(slots[..|slots| - 1]);
    }
  }

  /** The entries of a list are exactly the kept slots' entries, one by one. */
  lemma SerializedSingle(slot: Slot)
    ensures Serialized([slot]) == Entry(slot)
  {
    assert [slot][..0] == [];
  }

  /** Every entry names a type: an item's map or an error marker. */
  lemma {:induction false} EntriesHaveType(slots: seq<Slot>)
    ensures forall k :: 0 <= k < |Serialized(slots)| ==> Serialized(slots)[k].Obj? && "type" in Serialized(slots)[k].fields
    decreases |slots|
  {
    if |slots| > 0 {
      EntriesHaveType(slots[..|slots| - 1]);
    }
  }

  /** `serializeItems`: a null array gives the empty list; otherwise the loop appends each entry. */
  method SerializeItems(items: Option<seq<Slot>>) returns (result: seq<Value>)
    ensures items.None? ==> result == []
    ensures items.Some? ==> result == Serialized(items.value)
  {
    result := [];
    if items.None? {
      return;
    }
    var slots := items.value;
    var i := 0;
    while i < |slots|
      invariant 0 <= i <= |slots|
      invariant result == Serialized(slots[..i])
    {
      var r := SerializeItem(slots[i]);
      match r {
        case Err(t) =>
          result := result + [Obj(ErrorMarker(t))];
        case Ok(m) =>
          if m.Some? {
            result := result + [Obj(m.value)];
          }
      }
      assert slots[..i + 1][..i] == slots[..i];
      assert result == Serialized(slots[..i + 1]);
      i := i + 1;
    }
    assert slots[..i] == slots;
  }

  /** The location of a player, or the exception reading it raised. */
  datatype Location =
    | Location(x: real, y: real, z: real, world: Option<string>, yaw: real, pitch: real)
    | Unreadable(message: string)

  /** A snapshot as the serializer reads it; a null name is stored as a null value. */
  datatype PlayerData = PlayerData(
    name: Option<string>, uuid: Option<string>, skinUrl: Option<string>,
    armor: Option<seq<Slot>>, inventory: Option<seq<Slot>>, mainHand: Slot, offHand: Slot,
    level: int, health: real, maxHealth: real, location: Option<Location>)

  const UnknownWorld: string := "un" + "known"

  function LocationMap(loc: Location): (m: map<string, Value>)
    ensures loc.Location? ==> m.Keys == {"x", "y", "z", "world", "yaw", "pitch"}
    ensures loc.Unreadable? ==> m.Keys == {"error"} && m["error"] == Str(LocationErrorPrefix + loc.message)
  {
    match loc
    case Location(x, y, z, world, yaw, pitch) =>
      map["x" := Num(x), "y" := Num(y), "z" := Num(z),
          "world" := Str(if world.Some? then world.value else UnknownWorld),
          "yaw" := Num(yaw), "pitch" := Num(pitch)]
    case Unreadable(msg) => map["error" := Str(LocationErrorPrefix + msg)]
  }

  /** The keys of a serialized snapshot. */
  datatype Key = NameKey | UuidKey | SkinKey | ArmorKey | InventoryKey | MainHandKey | OffHandKey
               | LevelKey | HealthKey | MaxHealthKey | LocationKey

  /** The JSON text of each key. */
  function KeyText(k: Key): string {
    match k
    case NameKey => "name"
    case UuidKey => "uuid"
    case SkinKey => "skinURL"
    case ArmorKey => "armor"
    case InventoryKey => "inventory"
    case MainHandKey => "mainHand"
    case OffHandKey => "offHand"
    case LevelKey => "level"
    case HealthKey => "health"
    case MaxHealthKey => "maxHealth"
    case LocationKey => "location"
  }

  /** The keys every serialized snapshot has. */
  const AlwaysKeys: set<Key> := {NameKey, ArmorKey, InventoryKey, MainHandKey, OffHandKey, LevelKey, HealthKey, MaxHealthKey}

  /** The keys present only when the snapshot has the value. */
  function OptionalKeys(p: PlayerData): set<Key> {
    (if p.uuid.Some? then {UuidKey} else {}) + (if p.skinUrl.Some? then {SkinKey} else {}) +
    (if p.location.Some? then {LocationKey} else {})
  }

  function OrNull(m: Option<map<string, Value>>): Value {
    if m.Some? then Obj(m.value) else Null
  }

  /** The identity part: the name (possibly null), then the uuid and skin URL when present. */
  function Identity(p: PlayerData): (m: map<Key, Value>)
    ensures m.Keys == {NameKey} + (if p.uuid.Some? then {UuidKey} else {}) + (if p.skinUrl.Some? then {SkinKey} else {})
  {
    var withName := map[NameKey := if p.name.Some? then Str(p.name.value) else Null];
    var withUuid := if p.uuid.Some? then withName[UuidKey := Str(p.uuid.value)] else withName;
    if p.skinUrl.Some? then withUuid[SkinKey := Str(p.skinUrl.value)] else withUuid
  }

  /** A list field: the serialized slots, or the empty list for a null array. */
  function ListOf(items: Option<seq<Slot>>): Value {
    List(if items.Some? then Serialized(items.value) else [])
  }

  /** The snapshot's map once both hand items are serialized. */
  function Snapshot(p: PlayerData, main: Option<map<string, Value>>, off: Option<map<string, Value>>): (m: map<Key, Value>)
    ensures ArmorKey in m && m[ArmorKey] == ListOf(p.armor)
    ensures InventoryKey in m && m[InventoryKey] == ListOf(p.inventory)
    ensures MainHandKey in m && m[MainHandKey] == OrNull(main)
    ensures OffHandKey in m && m[OffHandKey] == OrNull(off)
    ensures m.Keys == AlwaysKeys + OptionalKeys(p)
  {
    var status := Identity(p)[ArmorKey := ListOf(p.armor)][InventoryKey := ListOf(p.inventory)]
      [MainHandKey := OrNull(main)][OffHandKey := OrNull(off)]
      [LevelKey := Int(p.level)][HealthKey := Num(p.health)][MaxHealthKey := Num(p.maxHealth)];
    if p.location.Some? then status[LocationKey := Obj(LocationMap(p.location.value))] else status
  }

  /**
   * `serialize`: the snapshot's map. A hand item that cannot be read raises out of it
   * (only list items are caught).
   */
  function Serialize(p: PlayerData): (r: Result<map<Key, Value>, string>)
    ensures r.Err? <==> p.mainHand.Throwing? || p.offHand.Throwing?
    ensures r.Ok? ==> r.value.Keys == AlwaysKeys + OptionalKeys(p)
    ensures r.Ok? ==> r.value[ArmorKey] == ListOf(p.armor) && r.value[InventoryKey] == ListOf(p.inventory)
    ensures r.Ok? ==> (r.value[MainHandKey] == Null <==> Dropped(p.mainHand)) && (r.value[OffHandKey] == Null <==> Dropped(p.offHand))
  {
    var main :- SerializeItem(p.mainHand);
    var off :- SerializeItem(p.offHand);
    Ok(Snapshot(p, main, off))
  }
}
