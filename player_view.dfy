/**
 * The pure parts of the player page that work on the data the proxy sends: the total
 * player count and the list of servers shown, the armour slot an item belongs to, and
 * the layout of the 36 inventory slots.
 */
module PlayerView {
  import opened Wrappers
  import opened Text

  // ---- Servers and player counts ----

  /** A server of the list; `playerCount` is None when it is not a number. */
  datatype ServerEntry = ServerEntry(name: string, playerCount: Option<int>)

  /** The servers as received; a null entry is None. */
  type ServerList = seq<Option<ServerEntry>>

  /** What a server adds to the total: its count when it is a number, 0 otherwise. */
  function CountOf(server: Option<ServerEntry>): int {
    if server.Some? && server.value.playerCount.Some? then server.value.playerCount.value else 0
  }

  /** The `reduce` over the list, left to right from 0. */
  function Sum(servers: ServerList): int
    decreases |servers|
  {
    if |servers| == 0 then 0 else Sum(servers[..|servers| - 1]) + CountOf(servers[|servers| - 1])
  }

  /** `calculateTotalPlayerCount`: 0 for a missing list. */
  function TotalPlayerCount(servers: Option<ServerList>): (r: int)
    ensures servers.None? ==> r == 0
    ensures servers.Some? ==> r == Sum(servers.value)
  {
    if servers.None? then 0 else Sum(servers.value)
  }

  /** No count is negative. */
  predicate CountsNonNegative(servers: ServerList) {
    forall k :: 0 <= k < |servers| ==> CountOf(servers[k]) >= 0
  }

  /** The filter of the server list: a server with a numeric count of at least 1. */
  predicate Online(server: Option<ServerEntry>) {
    server.Some? && server.value.playerCount.Some? && server.value.playerCount.value >= 1
  }

  /** The servers the page lists, in order. */
  function VisibleServers(servers: ServerList): (r: ServerList)
    ensures forall k :: 0 <= k < |r| ==> Online(r[k])
    decreases |servers|
  {
    if |servers| == 0 then []
    else VisibleServers(servers[..|servers| - 1]) + (if Online(servers[|servers| - 1]) then [servers[|servers| - 1]] else [])
  }

  /** The filter keeps every online server as often as it occurs, and nothing else. */
  lemma {:induction false} VisibleKeepsOnline(servers: ServerList, server: Option<ServerEntry>)
    ensures multiset(VisibleServers(servers))[server] == if Online(server) then multiset(servers)[server] else 0
    decreases |servers|
  {
    if |servers| > 0 {
      VisibleKeepsOnline(servers[..|servers| - 1], server);
      assert servers == servers[..|servers| - 1] + [servers[|servers| - 1]];
    }
  }

  /**
   * The total is taken over all servers, but the hidden ones hold nobody: with no negative
   * count, the visible servers add up to the same total.
   */
  lemma {:induction false} HiddenServersAddNothing(servers: ServerList)
    requires CountsNonNegative(servers)
    ensures Sum(VisibleServers(servers)) == Sum(servers)
    decreases |servers|
  {
    if |servers| > 0 {
      var init := servers[..|servers| - 1];
      HiddenServersAddNothing(init);
      SumAppend(VisibleServers(init), if Online(servers[|servers| - 1]) then [servers[|servers| - 1]] else []);
    }
  }

  /** The sum of a concatenation. */
  lemma {:induction false} SumAppend(a: ServerList, b: ServerList)
    ensures Sum(a + b) == Sum(a) + Sum(b)
    decreases |b|
  {
    if |b| == 0 {
      assert a + b == a;
    } else {
      SumAppend(a, b[..|b| - 1]);
      assert (a + b)[..|a + b| - 1] == a + b[..|b| - 1];
      assert (a + b)[|a + b| - 1] == b[|b| - 1];
    }
  }

  /** Every listed server has a player, so the total is at least the number of servers listed. */
  lemma {:induction false} TotalCoversListed(servers: ServerList)
    requires CountsNonNegative(servers)
    ensures TotalPlayerCount(Some(servers)) >= |VisibleServers(servers)|
    decreases |servers|
  {
    if |servers| > 0 {
      var init := servers[..|servers| - 1];
      TotalCoversListed(init);
    }
  }

  // ---- Armour ----

  datatype ArmorSlot = Helmet | Chestplate | Leggings | Boots

  /** The slots in the order they are examined. */
  function Rank(slot: ArmorSlot): nat {
    match slot
    case Helmet => 0
    case Chestplate => 1
    case Leggings => 2
    case Boots => 3
  }

  /** The words that mark each slot. */
  function Keywords(slot: ArmorSlot): seq<string> {
    match slot
    case Helmet => ["helmet", "cap", "skull", "head"]
    case Chestplate => ["chestplate", "tunic", "vest", "chest"]
    case Leggings => ["leggings", "pants", "leg"]
    case Boots => ["boots", "shoes", "foot"]
  }

  /** The text holds one of the slot's words. */
  predicate Marks(t: string, slot: ArmorSlot) {
    exists k :: 0 <= k < |Keywords(slot)| && Contains(t, Keywords(slot)[k])
  }

  /** `detectArmorType`: the first slot, in test order, one of whose words the lowercased type holds. */
  function DetectArmorType(typeName: Option<string>): Option<ArmorSlot> {
    if typeName.None? || typeName.value == "" then None
    else
      var t := Lower(typeName.value);
      if Contains(t, "helmet") || Contains(t, "cap") || Contains(t, "skull") || Contains(t, "head") then Some(Helmet)
      else if Contains(t, "chestplate") || Contains(t, "tunic") || Contains(t, "vest") || Contains(t, "chest") then Some(Chestplate)
      else if Contains(t, "leggings") || Contains(t, "pants") || Contains(t, "leg") then Some(Leggings)
      else if Contains(t, "boots") || Contains(t, "shoes") || Contains(t, "foot") then Some(Boots)
      else None
  }

  /** The slot found is the one whose words the type holds and which no earlier slot claims. */
  lemma DetectArmorByKeywords(typeName: string, slot: ArmorSlot)
    requires typeName != ""
    ensures DetectArmorType(Some(typeName)) == Some(slot) <==>
      Marks(Lower(typeName), slot) && forall other: ArmorSlot :: Rank(other) < Rank(slot) ==> !Marks(Lower(typeName), other)
  {
    var t := Lower(typeName);
    HelmetWords(t);
    ChestplateWords(t);
    LeggingsWords(t);
    BootsWords(t);
  }

  /** No slot is found exactly when the type holds no word of any slot. */
  lemma NoArmorWithoutKeywords(typeName: string)
    requires typeName != ""
    ensures DetectArmorType(Some(typeName)) == None <==> forall other: ArmorSlot :: !Marks(Lower(typeName), other)
  {
    var t := Lower(typeName);
    HelmetWords(t);
    ChestplateWords(t);
    LeggingsWords(t);
    BootsWords(t);
  }

  lemma HelmetWords(t: string)
    ensures Marks(t, Helmet) <==> Contains(t, "helmet") || Contains(t, "cap") || Contains(t, "skull") || Contains(t, "head")
  {
    var w := Keywords(Helmet);
    assert w[0] == "helmet" && w[1] == "cap" && w[2] == "skull" && w[3] == "head";
  }

  lemma ChestplateWords(t: string)
    ensures Marks(t, Chestplate) <==> Contains(t, "chestplate") || Contains(t, "tunic") || Contains(t, "vest") || Contains(t, "chest")
  {
    var w := Keywords(Chestplate);
    assert w[0] == "chestplate" && w[1] == "tunic" && w[2] == "vest" && w[3] == "chest";
  }

  lemma LeggingsWords(t: string)
    ensures Marks(t, Leggings) <==> Contains(t, "leggings") || Contains(t, "pants") || Contains(t, "leg")
  {
    var w := Keywords(Leggings);
    assert w[0] == "leggings" && w[1] == "pants" && w[2] == "leg";
  }

  lemma BootsWords(t: string)
    ensures Marks(t, Boots) <==> Contains(t, "boots") || Contains(t, "shoes") || Contains(t, "foot")
  {
    var w := Keywords(Boots);
    assert w[0] == "boots" && w[1] == "shoes" && w[2] == "foot";
  }

  /** A missing or empty type has no slot. */
  lemma NoTypeNoSlot(typeName: Option<string>)
    requires typeName.None? || typeName.value == ""
    ensures DetectArmorType(typeName).None?
  {
  }

  /** The test ignores case: only the lowercased type is looked at. */
  lemma DetectIgnoresCase(a: string, b: string)
    requires a != "" && Lower(a) == Lower(b)
    ensures DetectArmorType(Some(a)) == DetectArmorType(Some(b))
  {
  }

  // ---- Inventory ----

  /** The number of inventory slots the page shows: the hotbar and the main inventory. */
  const SlotCount: nat := 36

  /** The inventory index shown at grid position `p`: the main inventory 9..35 first, then the hotbar 0..8. */
  function GridIndex(p: nat): (i: nat)
    requires p < SlotCount
    ensures i < SlotCount
  {
    if p < 27 then p + 9 else p - 27
  }

  /** The grid position of inventory index `i`. */
  function GridPosition(i: nat): (p: nat)
    requires i < SlotCount
    ensures p < SlotCount
  {
    if i >= 9 then i - 9 else i + 27
  }

  /** The layout is a bijection between the grid positions and the inventory indices. */
  lemma GridBijection(p: nat, i: nat)
    requires p < SlotCount && i < SlotCount
    ensures GridPosition(GridIndex(p)) == p
    ensures GridIndex(GridPosition(i)) == i
  {
  }

  /** The slots the page creates, in order: three rows of nine for 9..35, then the hotbar row 0..8. */
  method BuildInventoryGrid() returns (slots: seq<nat>)
    ensures |slots| == SlotCount
    ensures forall p :: 0 <= p < SlotCount ==> slots[p] == GridIndex(p)
  {
    slots := [];
    var row := 0;
    while row < 3
      invariant 0 <= row <= 3
      invariant |slots| == row * 9
      invariant forall p :: 0 <= p < |slots| ==> slots[p] == p + 9
    {
      var col := 0;
      while col < 9
        invariant 0 <= col <= 9
        invariant |slots| == row * 9 + col
        invariant forall p :: 0 <= p < |slots| ==> slots[p] == p + 9
      {
        slots := slots + [9 + row * 9 + col];
        col := col + 1;
      }
      row := row + 1;
    }
    var col := 0;
    while col < 9
      invariant 0 <= col <= 9
      invariant |slots| == 27 + col
      invariant forall p :: 0 <= p < |slots| ==> slots[p] == GridIndex(p)
    {
      slots := slots + [col];
      col := col + 1;
    }
  }

  /** Every index 0..35 has exactly one slot, so the grid is a permutation of 0..35. */
  lemma GridIsPermutation(slots: seq<nat>)
    requires |slots| == SlotCount && forall p :: 0 <= p < SlotCount ==> slots[p] == GridIndex(p)
    ensures forall i :: 0 <= i < SlotCount ==> slots[GridPosition(i)] == i
    ensures forall p, q :: 0 <= p < q < SlotCount ==> slots[p] != slots[q]
  {
    forall p, q | 0 <= p < q < SlotCount
      ensures slots[p] != slots[q]
    {
      GridBijection(p, 0);
      GridBijection(q, 0);
    }
  }

  /** An item the page draws: present, with a type, and not air. */
  predicate Drawn(item: Option<string>) {
    item.Some? && item.value != "" && item.value != "AIR"
  }

  /** What the slot at grid position `p` shows, from the first 36 entries. */
  function SlotItem(inventory: seq<Option<string>>, p: nat): (r: Option<string>)
    requires p < SlotCount
    ensures r.Some? ==> GridIndex(p) < |inventory| && inventory[GridIndex(p)] == r && Drawn(r)
  {
    var i := GridIndex(p);
    if i < |inventory| && Drawn(inventory[i]) then inventory[i] else None
  }

  /** Each drawn item among the first 36 appears in exactly the slot of its index. */
  lemma DrawnItemPlaced(inventory: seq<Option<string>>, i: nat)
    requires i < SlotCount && i < |inventory| && Drawn(inventory[i])
    ensures SlotItem(inventory, GridPosition(i)) == inventory[i]
    ensures forall p :: 0 <= p < SlotCount && p != GridPosition(i) ==> GridIndex(p) != i
  {
  }

  /**
   * `cleanInventoryData`: an empty list for a value that is not an array; otherwise the
   * first 36 entries (the hotbar and the main inventory), without armour and off hand.
   */
  method CleanInventoryData<T>(inventory: Option<seq<T>>) returns (cleaned: seq<T>)
    ensures inventory.None? ==> cleaned == []
    ensures inventory.Some? ==> |cleaned| == if |inventory.value| < SlotCount then |inventory.value| else SlotCount
    ensures inventory.Some? ==> cleaned == inventory.value[..|cleaned|]
  {
    if inventory.None? {
      return [];
    }
    var items := inventory.value;
    cleaned := [];
    var i := 0;
    while i < |items|
      invariant 0 <= i <= |items|
      invariant cleaned == items[..if i < SlotCount then i else SlotCount]
    {
      if i < SlotCount {
        cleaned := cleaned + [items[i]];
      }
      i := i + 1;
    }
  }
}
