/** The game's objects and what one frame does to them: units with HP, cooldown and
    facing; the player's inventory and combat; items and their effects; villagers and
    their dialogue; passive and aggressive monsters; the camera; and the world that
    holds the entity list.

    Java's class hierarchy (Entity <- Item, Entity <- Unit <- Player, Villager,
    Monster <- PassiveMonster, AggressiveMonster) is kept by composition: an `Item`
    and a `Unit` each own an `Entity` (position and stored list index), and each kind
    of unit owns a `Unit`. The world's list holds `EntityRef`s, which say which kind
    of object each entry is, the way `instanceof` does in the game. */
module Game {
  import opened Lists
  import Timers
  import JavaNum
  import Tiles
  import IE = ItemEffects
  import Dialogue
  import Spawn

  const PLAYER_SPEED: real := 0.25
  const PASSIVE_MONSTER_SPEED: real := 0.2
  const AGGRESSIVE_MONSTER_SPEED: real := 0.25

  const ITEM_NOT_FOUND := -1
  const INTERACT_RANGE := 50
  const RESPAWN_POS_X: real := 738.0
  const RESPAWN_POS_Y: real := 549.0

  const WANDER_TIME := 3000
  const SAFE_TIME := 5000

  const WALK_RANGE := 150
  const ATTACK_RANGE := 50

  const PASSIVE_AI := -1
  const AGGRESSIVE_AI := 1

  /** Position on the map and the index the entity was last given in its list. */
  class Entity {
    var posX: real
    var posY: real
    var index: int

    constructor (x: real, y: real)
      ensures posX == x && posY == y && index == 0
    {
      posX, posY, index := x, y, 0;
    }
  }

  datatype Facing = Left | Right

  /** An entry of the world's entity list, tagged with the class of its object. */
  datatype EntityRef =
    | ItemRef(item: Item)
    | VillagerRef(villager: Villager)
    | PassiveRef(passive: PassiveMonster)
    | AggressiveRef(aggressive: AggressiveMonster)
  {
    function Base(): Entity
    {
      match this
      case ItemRef(it) => it.base
      case VillagerRef(v) => v.unit.base
      case PassiveRef(m) => m.unit.base
      case AggressiveRef(m) => m.unit.base
    }

    predicate IsUnit() { !ItemRef? }

    predicate IsMonster() { PassiveRef? || AggressiveRef? }

    function UnitOf(): Unit
      requires IsUnit()
    {
      match this
      case VillagerRef(v) => v.unit
      case PassiveRef(m) => m.unit
      case AggressiveRef(m) => m.unit
    }
  }

  // ---------------------------------------------------------------------------
  // Views of the lists used by the invariants and frames

  function BasesOf(es: seq<EntityRef>): (bs: seq<Entity>)
    ensures |bs| == |es| && forall k {:trigger bs[k]} :: 0 <= k < |es| ==> bs[k] == es[k].Base()
  {
    seq(|es|, k requires 0 <= k < |es| => es[k].Base())
  }

  function ItemBases(inv: seq<Item>): (bs: seq<Entity>)
    ensures |bs| == |inv| && forall k {:trigger bs[k]} :: 0 <= k < |inv| ==> bs[k] == inv[k].base
  {
    seq(|inv|, k requires 0 <= k < |inv| => inv[k].base)
  }

  ghost function BaseSet(es: seq<EntityRef>): set<Entity>
  {
    set r | r in es :: r.Base()
  }

  ghost function ItemBaseSet(inv: seq<Item>): set<Entity>
  {
    set it | it in inv :: it.base
  }

  ghost function UnitSet(es: seq<EntityRef>): set<Unit>
  {
    set r | r in es && r.IsUnit() :: r.UnitOf()
  }

  ghost function MonsterUnitSet(es: seq<EntityRef>): set<Unit>
  {
    set r | r in es && r.IsMonster() :: r.UnitOf()
  }

  ghost function VillagerSet(es: seq<EntityRef>): set<Villager>
  {
    set r | r in es && r.VillagerRef? :: r.villager
  }

  ghost function PassiveSet(es: seq<EntityRef>): set<PassiveMonster>
  {
    set r | r in es && r.PassiveRef? :: r.passive
  }

  /** Every passive monster of `ps` has just been attacked: it feels unsafe. */
  ghost predicate Startled(ps: set<PassiveMonster>)
    reads ps`safeTime
  {
    forall p :: p in ps ==> p.safeTime == 0
  }

  /** The passive monsters of a prefix of a list without repetitions grow by the next
      entry's monster, which none of the earlier entries holds. */
  lemma PassiveSetPrefix(near: seq<EntityRef>, i: int)
    requires Distinct(near) && 0 <= i < |near|
    ensures PassiveSet(near[..i + 1]) == PassiveSet(near[..i]) + (if near[i].PassiveRef? then {near[i].passive} else {})
    ensures near[i].PassiveRef? ==> near[i].passive !in PassiveSet(near[..i])
  {
    assert near[..i + 1] == near[..i] + [near[i]];
  }

  /** Every set above only shrinks when entries leave the list. */
  lemma SetsShrink(small: seq<EntityRef>, big: seq<EntityRef>)
    requires forall r :: r in small ==> r in big
    ensures BaseSet(small) <= BaseSet(big)
    ensures UnitSet(small) <= UnitSet(big)
    ensures MonsterUnitSet(small) <= MonsterUnitSet(big)
    ensures VillagerSet(small) <= VillagerSet(big)
    ensures PassiveSet(small) <= PassiveSet(big)
  {
  }

  predicate IsElixirRef(r: EntityRef)
  {
    r.ItemRef? && r.item.id == IE.ELIXIR_ID
  }

  predicate IsElixir(it: Item)
  {
    it.id == IE.ELIXIR_ID
  }

  /** No object is in two places at once: the entity list, the inventory and the
      player never share an entity. */
  ghost predicate Unshared(es: seq<EntityRef>, inv: seq<Item>, p: Player)
  {
    Distinct(BasesOf(es) + ItemBases(inv) + [p.unit.base])
  }

  /** The list layout the game keeps: nothing shared, and at most one elixir, in the
      world or in the inventory. */
  ghost predicate Layout(es: seq<EntityRef>, inv: seq<Item>, p: Player)
  {
    Unshared(es, inv, p) && CountWhere(es, IsElixirRef) + CountWhere(inv, IsElixir) <= 1
  }

  /** Entries of `es` with the same entity are the same entry. */
  ghost predicate BasesApart(es: seq<EntityRef>)
  {
    forall r1, r2 :: r1 in es && r2 in es && r1.Base() == r2.Base() ==> r1 == r2
  }

  /** Stored index == list position, for the entity list. */
  ghost predicate Indexed(es: seq<EntityRef>)
    reads BaseSet(es)`index
  {
    forall k {:trigger es[k].Base().index} :: 0 <= k < |es| ==> es[k].Base().index == k
  }

  /** Stored index == list position, for the inventory. */
  ghost predicate InventoryIndexed(inv: seq<Item>)
    reads ItemBaseSet(inv)`index
  {
    forall k :: 0 <= k < |inv| ==> inv[k].base.index == k
  }

  /** What survives of the inventory indices after `removeItem`, which does not
      re-index: no stored index is `ITEM_NOT_FOUND`, and the elixir sits at its
      stored index. */
  ghost predicate InventorySound(inv: seq<Item>)
    reads ItemBaseSet(inv)`index
  {
    forall k {:trigger inv[k].base.index} :: 0 <= k < |inv| ==> inv[k].base.index >= 0 && (IsElixir(inv[k]) ==> inv[k].base.index == k)
  }

  /** Every passive monster wanders along directions in {-1, 0, 1}. */
  ghost predicate PassivesSound(es: seq<EntityRef>)
    reads PassiveSet(es)`wanderX, PassiveSet(es)`wanderY
  {
    forall r :: r in es && r.PassiveRef? ==> r.passive.WanderValid()
  }

  lemma PassivesSoundShrink(small: seq<EntityRef>, big: seq<EntityRef>)
    requires forall r :: r in small ==> r in big
    requires PassivesSound(big)
    ensures PassivesSound(small)
  {
  }

  lemma BasesOfRemoveAt(es: seq<EntityRef>, k: int)
    requires 0 <= k < |es|
    ensures BasesOf(RemoveAt(es, k)) == RemoveAt(BasesOf(es), k)
  {
  }

  lemma ItemBasesRemoveAt(inv: seq<Item>, k: int)
    requires 0 <= k < |inv|
    ensures ItemBases(RemoveAt(inv, k)) == RemoveAt(ItemBases(inv), k)
  {
  }

  /** A new entry whose base is nowhere yet keeps the list unshared. */
  lemma UnsharedAppend(es: seq<EntityRef>, r: EntityRef, p: Player)
    requires Unshared(es, [], p) && r.Base() != p.unit.base
    requires forall k :: 0 <= k < |es| ==> es[k].Base() != r.Base()
    ensures Unshared(es + [r], [], p)
  {
    var before := BasesOf(es) + ItemBases([]) + [p.unit.base];
    var after := BasesOf(es + [r]) + ItemBases([]) + [p.unit.base];
    assert after == BasesOf(es) + [r.Base()] + [p.unit.base];
    forall i, j | 0 <= i < j < |after|
      ensures after[i] != after[j]
    {
      if j < |es| {
        assert after[i] == before[i] && after[j] == before[j];
      } else if j == |es| {
        assert after[i] == es[i].Base();
      } else if i < |es| {
        assert after[i] == before[i] && after[j] == before[j - 1];
      }
    }
  }

  /** Distinct bases make distinct entries. */
  lemma UnsharedEntries(es: seq<EntityRef>, inv: seq<Item>, p: Player)
    requires Unshared(es, inv, p)
    ensures Distinct(es)
    ensures BasesApart(es)
    ensures forall r :: r in es ==> r.Base() != p.unit.base
    ensures forall r, it :: r in es && it in inv ==> r.Base() != it.base
    ensures Distinct(BasesOf(es) + ItemBases(inv))
    ensures p.unit !in UnitSet(es)
  {
    var all := BasesOf(es) + ItemBases(inv) + [p.unit.base];
    forall r1, r2 | r1 in es && r2 in es && r1.Base() == r2.Base()
      ensures r1 == r2
    {
      var i :| 0 <= i < |es| && es[i] == r1;
      var j :| 0 <= j < |es| && es[j] == r2;
      assert all[i] == r1.Base() && all[j] == r2.Base();
    }
    forall r | r in es
      ensures r.Base() != p.unit.base
    {
      var i :| 0 <= i < |es| && es[i] == r;
      assert all[i] == r.Base() && all[|all| - 1] == p.unit.base;
    }
    forall r, it | r in es && it in inv
      ensures r.Base() != it.base
    {
      var i :| 0 <= i < |es| && es[i] == r;
      var j :| 0 <= j < |inv| && inv[j] == it;
      assert all[i] == r.Base() && all[|es| + j] == it.base;
    }
    forall i, j | 0 <= i < j < |es|
      ensures es[i] != es[j]
    {
      assert all[i] == es[i].Base() && all[j] == es[j].Base();
    }
    var front := BasesOf(es) + ItemBases(inv);
    forall i, j | 0 <= i < j < |front|
      ensures front[i] != front[j]
    {
      assert all[i] == front[i] && all[j] == front[j];
    }
  }

  /** A unit leaving the list keeps the layout. */
  lemma LayoutAfterRemove(es: seq<EntityRef>, inv: seq<Item>, p: Player, k: int)
    requires 0 <= k < |es| && Layout(es, inv, p)
    ensures Layout(RemoveAt(es, k), inv, p)
    ensures forall r :: r in RemoveAt(es, k) <==> r in es && r != es[k]
  {
    var tail := ItemBases(inv) + [p.unit.base];
    BasesOfRemoveAt(es, k);
    RemoveAtAppend(BasesOf(es), tail, k);
    assert BasesOf(es) + ItemBases(inv) + [p.unit.base] == BasesOf(es) + tail;
    assert BasesOf(RemoveAt(es, k)) + ItemBases(inv) + [p.unit.base] == BasesOf(RemoveAt(es, k)) + tail;
    RemoveAtDistinct(BasesOf(es) + tail, k);
    CountWhereRemoveAt(es, k, IsElixirRef);
    UnsharedEntries(es, inv, p);
    RemoveAtDistinct(es, k);
  }

  /** An item moving from position `k` of the list to the end of the inventory keeps
      the layout. */
  lemma LayoutAfterCollect(es: seq<EntityRef>, inv: seq<Item>, p: Player, k: int)
    requires 0 <= k < |es| && es[k].ItemRef? && Layout(es, inv, p)
    ensures Layout(RemoveAt(es, k), inv + [es[k].item], p)
    ensures forall r :: r in RemoveAt(es, k) <==> r in es && r != es[k]
  {
    var it := es[k].item;
    var before := BasesOf(es) + ItemBases(inv) + [p.unit.base];
    var after := BasesOf(RemoveAt(es, k)) + ItemBases(inv + [it]) + [p.unit.base];
    BasesOfRemoveAt(es, k);
    assert ItemBases(inv + [it]) == ItemBases(inv) + [it.base];
    assert BasesOf(es) == BasesOf(es)[..k] + [it.base] + BasesOf(es)[k + 1..];
    assert multiset(after) == multiset(before);
    DistinctPermutation(before, after);
    CountWhereRemoveAt(es, k, IsElixirRef);
    CountWhereAppend(inv, [it], IsElixir);
    assert CountWhere([it], IsElixir) == (if IsElixir(it) then 1 else 0) by {
      assert [it][..0] == [];
    }
    UnsharedEntries(es, inv, p);
    RemoveAtDistinct(es, k);
  }

  /** An item leaving the inventory keeps the layout. */
  lemma LayoutAfterDrop(es: seq<EntityRef>, inv: seq<Item>, p: Player, k: int)
    requires 0 <= k < |inv| && Layout(es, inv, p)
    ensures Layout(es, RemoveAt(inv, k), p)
    ensures CountWhere(RemoveAt(inv, k), IsElixir) + (if IsElixir(inv[k]) then 1 else 0) == CountWhere(inv, IsElixir)
  {
    UnsharedAfterDrop(es, inv, p, k);
    CountWhereRemoveAt(inv, k, IsElixir);
  }

  /** Taking an item out of the inventory keeps the entities apart. */
  lemma UnsharedAfterDrop(es: seq<EntityRef>, inv: seq<Item>, p: Player, k: int)
    requires 0 <= k < |inv| && Unshared(es, inv, p)
    ensures Unshared(es, RemoveAt(inv, k), p)
  {
    var bs, ib, pb := BasesOf(es), ItemBases(inv), [p.unit.base];
    BasesAfterDrop(bs, inv, pb, k);
    RemoveAtDistinct(bs + ib + pb, |bs| + k);
  }

  lemma BasesAfterDrop(bs: seq<Entity>, inv: seq<Item>, pb: seq<Entity>, k: int)
    requires 0 <= k < |inv|
    ensures bs + ItemBases(RemoveAt(inv, k)) + pb == RemoveAt(bs + ItemBases(inv) + pb, |bs| + k)
  {
    var ib := ItemBases(inv);
    ItemBasesRemoveAt(inv, k);
    RemoveAtShift(bs, ib, k);
    RemoveAtAppend(bs + ib, pb, |bs| + k);
  }

  // ---------------------------------------------------------------------------
  // Unit

  /** A tentative coordinate after moving for `delta` milliseconds along `dir`. */
  function NewLocation(pos: real, dir: real, delta: int, speed: real): real
  {
    pos + dir * (delta as real) * speed
  }

  /** What every character has: HP, damage, cooldown, speed, facing and a name. */
  class Unit {
    const base: Entity
    var facing: Facing
    var cooldown: int
    var maxHP: int
    var hp: int
    var speed: real
    var damage: int
    const name: string
    var cooldownTime: int

    /** The fields each kind of unit sets in its constructor; HP always starts at the
        maximum and the unit faces right. */
    constructor (x: real, y: real, maxHP: int, damage: int, cooldown: int, cooldownTime: int, speed: real, name: string)
      ensures fresh(base) && base.posX == x && base.posY == y && base.index == 0
      ensures facing == Right && this.maxHP == maxHP && hp == maxHP && this.damage == damage
      ensures this.cooldown == cooldown && this.cooldownTime == cooldownTime
      ensures this.speed == speed && this.name == name
    {
      base := new Entity(x, y);
      facing := Right;
      this.maxHP := maxHP;
      hp := maxHP;
      this.damage := damage;
      this.cooldown := cooldown;
      this.cooldownTime := cooldownTime;
      this.speed := speed;
      this.name := name;
    }

    function Stats(): IE.Stats
      reads this`maxHP, this`hp, this`damage, this`cooldown
    {
      IE.Stats(maxHP, hp, damage, cooldown)
    }

    method TakeDamage(amount: int)
      modifies this`hp
      ensures hp == old(hp) - amount
    {
      hp := hp - amount;
    }

    method FlipUnit(dirX: real)
      modifies this`facing
      ensures facing == Left <==> dirX < 0.0
    {
      if dirX < 0.0 {
        facing := Left;
      } else {
        facing := Right;
      }
    }

    method CheckCooldown(delta: int)
      modifies this`cooldownTime
      ensures cooldownTime == Timers.Tick(old(cooldownTime), cooldown, delta)
      ensures old(cooldownTime) < cooldown ==> cooldownTime == old(cooldownTime) + delta
      ensures old(cooldownTime) >= cooldown ==> cooldownTime == cooldown
    {
      if cooldownTime < cooldown {
        cooldownTime := cooldownTime + delta;
      } else if cooldownTime != cooldown {
        cooldownTime := cooldown;
      }
    }

    method Move(world: World, dirX: real, dirY: real, delta: int)
      modifies base`posX, base`posY
      ensures (base.posX, base.posY) == world.Destination(old(base.posX), old(base.posY), dirX, dirY, delta, speed)
    {
      var dx, dy := dirX, dirY;
      var tempX := NewLocation(base.posX, dirX, delta, speed);
      var tempY := NewLocation(base.posY, dirY, delta, speed);
      if world.IsBlocked(tempX, base.posY) {
        dx := 0.0;
      }
      if world.IsBlocked(base.posX, tempY) {
        dy := 0.0;
      }
      base.posX := NewLocation(base.posX, dx, delta, speed);
      base.posY := NewLocation(base.posY, dy, delta, speed);
    }

    /** One frame: move, then turn, then advance the cooldown. */
    method Update(world: World, dirX: real, dirY: real, delta: int)
      modifies base`posX, base`posY, this`facing, this`cooldownTime
      ensures (base.posX, base.posY) == world.Destination(old(base.posX), old(base.posY), dirX, dirY, delta, speed)
      ensures facing == Left <==> dirX < 0.0
      ensures cooldownTime == Timers.Tick(old(cooldownTime), cooldown, delta)
    {
      Move(world, dirX, dirY, delta);
      FlipUnit(dirX);
      CheckCooldown(delta);
    }

    /** A hit is only dealt once the cooldown has run out; it restarts the cooldown and
        does between 0 and `damage` points. */
    method Attack() returns (dealt: int)
      requires cooldownTime == cooldown ==> damage >= 0
      modifies this`cooldownTime
      ensures old(cooldownTime) == cooldown ==> cooldownTime == 0 && 0 <= dealt <= damage
      ensures old(cooldownTime) != cooldown ==> cooldownTime == old(cooldownTime) && dealt == 0
    {
      if cooldownTime == cooldown {
        cooldownTime := 0;
        dealt :| 0 <= dealt <= damage;
      } else {
        dealt := 0;
      }
    }

    /** A monster that is hit loses `amount` HP and leaves the world when its HP drops
        below 1. */
    method OnAttack(world: World, amount: int)
      requires world.Valid() && base in BaseSet(world.entities)
      modifies this`hp, world`entities, world.IndexFrame()`index
      ensures hp == old(hp) - amount
      ensures world.Valid()
      ensures 0 <= old(base.index) < |old(world.entities)|
      ensures world.entities == if hp < 1 then RemoveAt(old(world.entities), old(base.index)) else old(world.entities)
      ensures base in BaseSet(world.entities) <==> hp >= 1
    {
      var k :| 0 <= k < |world.entities| && world.entities[k].Base() == base;
      TakeDamage(amount);
      if hp < 1 {
        ghost var es := world.entities;
        world.Remove(base);
        world.RemovedValid(es, k);
        UnsharedEntries(es, world.player.inventory, world.player);
        forall r | r in world.entities
          ensures r.Base() != base
        {
          assert r in es && r != es[k];
        }
      }
    }
  }

  // ---------------------------------------------------------------------------
  // Item

  class Item {
    const base: Entity
    const id: int

    constructor (x: int, y: int, id: int)
      ensures fresh(base) && base.posX == x as real && base.posY == y as real && base.index == 0
      ensures this.id == id
    {
      base := new Entity(x as real, y as real);
      this.id := id;
    }

    /** The item joins the end of the player's inventory and applies its buff. */
    method ItemCollected(player: Player)
      modifies player`inventory, player.unit`maxHP, player.unit`hp, player.unit`damage, player.unit`cooldown
      ensures player.inventory == old(player.inventory) + [this]
      ensures player.unit.Stats() == IE.Buff(old(player.unit.Stats()), id)
    {
      player.inventory := player.inventory + [this];
      if id == IE.AMULET_ID {
        player.unit.maxHP := player.unit.maxHP + IE.AMULET_BUFF;
        player.unit.hp := player.unit.hp + IE.AMULET_BUFF;
      } else if id == IE.SWORD_ID {
        player.unit.damage := player.unit.damage + IE.SWORD_BUFF;
      } else if id == IE.TOME_ID {
        player.unit.cooldown := player.unit.cooldown - IE.TOME_BUFF;
      }
    }
  }

  /** The items among `es`, in list order. */
  function ItemsOf(es: seq<EntityRef>): seq<Item>
  {
    if es == [] then []
    else
      var last := es[|es| - 1];
      ItemsOf(es[..|es| - 1]) + (if last.ItemRef? then [last.item] else [])
  }

  /** The items picked out are exactly the items among the entries. */
  lemma {:induction false} ItemsOfMembers(es: seq<EntityRef>)
    ensures forall it :: it in ItemsOf(es) <==> ItemRef(it) in es
  {
    if es != [] {
      var front := es[..|es| - 1];
      assert es == front + [es[|es| - 1]];
      ItemsOfMembers(front);
    }
  }

  /** The item entries among `es`. */
  ghost function ItemEntries(es: seq<EntityRef>): set<EntityRef>
  {
    set r | r in es && r.ItemRef?
  }

  /** The monsters among `s` whose HP has dropped below 1. */
  ghost function Fallen(s: seq<EntityRef>): set<EntityRef>
    reads MonsterUnitSet(s)`hp
  {
    set r | r in s && r.IsMonster() && r.UnitOf().hp < 1
  }

  /** Fallen depends on nothing but the HP of the monsters in the list. */
  twostate lemma FallenKept(s: seq<EntityRef>)
    requires forall r :: r in s && r.IsMonster() ==> r.UnitOf().hp == old(r.UnitOf().hp)
    ensures Fallen(s) == old(Fallen(s))
  {
  }

  /** The next monster of a list of distinct entries drawn from `es0` has not been
      removed yet, and no earlier entry shares its unit. */
  lemma StrikeTarget(es0: seq<EntityRef>, near: seq<EntityRef>, i: int)
    requires 0 <= i < |near| && near[i].IsMonster()
    requires BasesApart(es0) && Distinct(near) && forall k :: 0 <= k < |near| ==> near[k] in es0
    ensures near[i] in Without(es0, Fallen(near[..i]))
    ensures near[i].UnitOf() !in MonsterUnitSet(near[..i])
  {
    var r := near[i];
    assert r !in near[..i];
    WithoutMembers(es0, Fallen(near[..i]));
    forall q | q in near[..i] && q.IsMonster()
      ensures q.UnitOf() != r.UnitOf()
    {
      assert q != r && q in es0;
    }
  }

  /** What talking does to a villager's timer: one whose timer has run out speaks
      and restarts it; one still talking keeps it. */
  predicate Answered(before: int, after: int)
  {
    if before == Dialogue.TALK_TIME then after == 0 else after == before
  }

  /** The villager of the next entry of a list of distinct entries drawn from `es0`
      is not the villager of any earlier entry. */
  lemma VillagerFirst(es0: seq<EntityRef>, near: seq<EntityRef>, i: int)
    requires 0 <= i < |near| && near[i].VillagerRef?
    requires BasesApart(es0) && Distinct(near) && forall k :: 0 <= k < |near| ==> near[k] in es0
    ensures near[i].villager !in VillagerSet(near[..i])
    ensures VillagerSet(near[..i + 1]) == VillagerSet(near[..i]) + {near[i].villager}
  {
    var r := near[i];
    assert near[..i + 1] == near[..i] + [r];
    assert r !in near[..i];
    forall q | q in near[..i] && q.VillagerRef?
      ensures q.villager != r.villager
    {
      assert q != r && q in es0;
    }
  }

  /** Monster.onAttack on an entry of the list: a passive monster feels unsafe again,
      then the unit takes the hit and leaves the list when its HP drops below 1. */
  method HitMonster(world: World, r: EntityRef, amount: int)
    requires r.IsMonster() && world.Valid() && r in world.entities
    modifies r.UnitOf()`hp, (if r.PassiveRef? then {r.passive} else {})`safeTime
    modifies world`entities, world.IndexFrame()`index
    ensures world.Valid()
    ensures r.UnitOf().hp == old(r.UnitOf().hp) - amount
    ensures r.PassiveRef? ==> r.passive.safeTime == 0
    ensures 0 <= old(r.Base().index) < |old(world.entities)| && old(world.entities)[old(r.Base().index)] == r
    ensures world.entities == if r.UnitOf().hp < 1 then RemoveAt(old(world.entities), old(r.Base().index))
                              else old(world.entities)
    ensures world.IndexFrame() <= old(world.IndexFrame())
  {
    ghost var es := world.entities;
    ghost var k :| 0 <= k < |es| && es[k] == r;
    assert r.Base() in BaseSet(es);
    if r.PassiveRef? {
      r.passive.OnAttack(world, amount);
    } else {
      r.aggressive.unit.OnAttack(world, amount);
    }
    assert forall x :: x in world.entities ==> x in es by {
      RemoveAtMembers(es, k);
    }
    SetsShrink(world.entities, es);
  }

  /** HitMonster on an entry of a list that is `es0` without `gone`: a fallen
      monster joins `gone`. */
  method StrikeEntry(world: World, r: EntityRef, amount: int, ghost es0: seq<EntityRef>, ghost gone: set<EntityRef>)
    requires r.IsMonster() && world.Valid() && r in world.entities
    requires Distinct(es0) && world.entities == Without(es0, gone)
    modifies r.UnitOf()`hp, (if r.PassiveRef? then {r.passive} else {})`safeTime
    modifies world`entities, world.IndexFrame()`index
    ensures world.Valid()
    ensures r.UnitOf().hp == old(r.UnitOf().hp) - amount
    ensures world.entities == Without(es0, if r.UnitOf().hp < 1 then gone + {r} else gone)
    ensures r.PassiveRef? ==> r.passive.safeTime == 0
    ensures world.IndexFrame() <= old(world.IndexFrame())
  {
    HitMonster(world, r, amount);
    if r.UnitOf().hp < 1 {
      WithoutRemoveAt(es0, gone, old(r.Base().index));
    }
  }

  /** How the items, their identifiers and the buffs of a prefix of `near` grow by
      one entry. */
  lemma PickUpStep(near: seq<EntityRef>, i: int, s: IE.Stats)
    requires 0 <= i < |near|
    ensures var r := near[i];
            ItemsOf(near[..i + 1]) == ItemsOf(near[..i]) + (if r.ItemRef? then [r.item] else [])
            && ItemEntries(near[..i + 1]) == (if r.ItemRef? then ItemEntries(near[..i]) + {r} else ItemEntries(near[..i]))
            && IE.BuffAll(s, IdsOf(ItemsOf(near[..i + 1])))
               == if r.ItemRef? then IE.Buff(IE.BuffAll(s, IdsOf(ItemsOf(near[..i]))), r.item.id)
                  else IE.BuffAll(s, IdsOf(ItemsOf(near[..i])))
  {
    var r := near[i];
    assert near[..i + 1] == near[..i] + [r];
    assert near[..i + 1][..i] == near[..i];
    var ids := IdsOf(ItemsOf(near[..i]));
    if r.ItemRef? {
      var ids' := IdsOf(ItemsOf(near[..i + 1]));
      assert ids' == ids + [r.item.id];
      assert ids'[..|ids|] == ids;
      assert IE.BuffAll(s, ids') == IE.Buff(IE.BuffAll(s, ids), r.item.id);
      assert ItemEntries(near[..i + 1]) == ItemEntries(near[..i]) + {r};
    } else {
      assert ItemsOf(near[..i + 1]) == ItemsOf(near[..i]);
      assert ItemEntries(near[..i + 1]) == ItemEntries(near[..i]);
    }
  }

  function IdsOf(items: seq<Item>): (ids: seq<int>)
    ensures |ids| == |items| && forall k :: 0 <= k < |items| ==> ids[k] == items[k].id
  {
    seq(|items|, k requires 0 <= k < |items| => items[k].id)
  }

  // ---------------------------------------------------------------------------
  // Player

  /** Position of the first item with identifier `id`, or |items| when none has it. */
  function FirstWith(items: seq<Item>, id: int): (k: nat)
    ensures k <= |items|
    ensures k < |items| ==> items[k].id == id
    ensures forall j :: 0 <= j < k ==> items[j].id != id
  {
    if items == [] then 0
    else if items[0].id == id then 0
    else 1 + FirstWith(items[1..], id)
  }

  predicate Holds(items: seq<Item>, id: int)
  {
    exists k :: 0 <= k < |items| && items[k].id == id
  }

  /** `findItem` finds an item exactly when one with that identifier is held. */
  lemma FirstWithFinds(items: seq<Item>, id: int)
    ensures FirstWith(items, id) < |items| <==> Holds(items, id)
  {
    var k := FirstWith(items, id);
    if Holds(items, id) {
      var j :| 0 <= j < |items| && items[j].id == id;
      assert k <= j;
    }
  }

  /** What `findItem` returns: the stored index of the first item with identifier
      `id`, or `ITEM_NOT_FOUND`. */
  ghost function StoredIndex(items: seq<Item>, id: int): int
    reads ItemBaseSet(items)`index
  {
    var k := FirstWith(items, id);
    if k < |items| then items[k].base.index else ITEM_NOT_FOUND
  }

  class Player {
    const unit: Unit
    var inventory: seq<Item>

    /** The player starts at full HP with its cooldown already run out, at player speed
        and with an empty inventory. The name passed by the world is not stored. */
    constructor (x: real, y: real, maxHP: int, damage: int, cooldown: int)
      ensures fresh(unit) && fresh(unit.base)
      ensures unit.base.posX == x && unit.base.posY == y && unit.base.index == 0
      ensures unit.Stats() == IE.Stats(maxHP, maxHP, damage, cooldown)
      ensures unit.cooldownTime == cooldown && unit.speed == PLAYER_SPEED && unit.facing == Right
      ensures inventory == []
    {
      unit := new Unit(x, y, maxHP, damage, cooldown, cooldown, PLAYER_SPEED, "");
      inventory := [];
    }

    method FindItem(id: int) returns (index: int)
      ensures index == StoredIndex(inventory, id)
      ensures InventorySound(inventory) ==> (index == ITEM_NOT_FOUND <==> !Holds(inventory, id))
    {
      var i := 0;
      while i < |inventory|
        invariant 0 <= i <= |inventory|
        invariant forall j :: 0 <= j < i ==> inventory[j].id != id
      {
        if inventory[i].id == id {
          assert FirstWith(inventory, id) == i by {
            FirstWithAt(inventory, id, i);
          }
          FirstWithFinds(inventory, id);
          return inventory[i].base.index;
        }
        i := i + 1;
      }
      assert !Holds(inventory, id);
      FirstWithFinds(inventory, id);
      return ITEM_NOT_FOUND;
    }

    /** Takes out the item `findItem` points at, by its stored index; the other items
        keep their stored indices. */
    method RemoveItem(id: int)
      requires var i := StoredIndex(inventory, id); i == ITEM_NOT_FOUND || 0 <= i < |inventory|
      modifies this`inventory
      ensures var i := old(StoredIndex(inventory, id));
              inventory == if i == ITEM_NOT_FOUND then old(inventory) else RemoveAt(old(inventory), i)
    {
      var itemIndex := FindItem(id);
      if itemIndex != ITEM_NOT_FOUND {
        inventory := RemoveAt(inventory, itemIndex);
      }
    }

    /** The outcome of a hit of `amount` on a player who had `hp0` HP at (`x0`, `y0`):
        the player keeps the position with `amount` fewer HP, or, when that would leave
        fewer than 1 HP, is back at the respawn point with full HP. */
    ghost predicate Struck(hp0: int, x0: real, y0: real, amount: int)
      reads unit`hp, unit`maxHP, unit.base`posX, unit.base`posY
    {
      if hp0 - amount >= 1 then unit.hp == hp0 - amount && unit.base.posX == x0 && unit.base.posY == y0
      else unit.hp == unit.maxHP && unit.base.posX == RESPAWN_POS_X && unit.base.posY == RESPAWN_POS_Y
    }

    /** One round of the checkForItem loop: the item joins the inventory with its
        buff, then leaves the world by its stored index. */
    method Collect(world: World, it: Item)
      requires world.player == this && world.Valid() && ItemRef(it) in world.entities
      modifies this`inventory, unit`maxHP, unit`hp, unit`damage, unit`cooldown
      modifies world`entities, world.IndexFrame()`index
      ensures world.Valid()
      ensures inventory == old(inventory) + [it]
      ensures unit.Stats() == IE.Buff(old(unit.Stats()), it.id)
      ensures 0 <= old(it.base.index) < |old(world.entities)| && old(world.entities)[old(it.base.index)] == ItemRef(it)
      ensures world.entities == RemoveAt(old(world.entities), old(it.base.index))
      ensures world.IndexFrame() <= old(world.IndexFrame())
    {
      ghost var es, inv := world.entities, inventory;
      ghost var k :| 0 <= k < |es| && es[k] == ItemRef(it);
      assert es[k].Base() == it.base;
      it.ItemCollected(this);
      world.Remove(it.base);
      world.CollectedValid(es, inv, k);
      assert ItemBaseSet(inventory) <= ItemBaseSet(inv) + BaseSet(es) by {
        assert ItemRef(it).Base() in BaseSet(es);
      }
      SetsShrink(world.entities, es);
    }

    /** The body of the checkForItem loop for entry `i` of `near`: an item is
        collected, anything else is passed over. The list, the inventory and the
        stats stand as the first `i` entries left them, and afterwards as the first
        `i` + 1 entries leave them. */
    method PickUp(world: World, near: seq<EntityRef>, i: int, ghost es0: seq<EntityRef>, ghost inv0: seq<Item>,
                  ghost s0: IE.Stats)
      requires world.player == this && world.Valid() && 0 <= i < |near|
      requires Distinct(es0) && Distinct(near) && near[i] in es0
      requires world.entities == Without(es0, ItemEntries(near[..i]))
      requires inventory == inv0 + ItemsOf(near[..i])
      requires unit.Stats() == IE.BuffAll(s0, IdsOf(ItemsOf(near[..i])))
      modifies this`inventory, unit`maxHP, unit`hp, unit`damage, unit`cooldown
      modifies world`entities, world.IndexFrame()`index
      ensures world.Valid()
      ensures world.entities == Without(es0, ItemEntries(near[..i + 1]))
      ensures inventory == inv0 + ItemsOf(near[..i + 1])
      ensures unit.Stats() == IE.BuffAll(s0, IdsOf(ItemsOf(near[..i + 1])))
      ensures world.IndexFrame() <= old(world.IndexFrame())
    {
      var r := near[i];
      ghost var gone := ItemEntries(near[..i]);
      PickUpStep(near, i, s0);
      if r.ItemRef? {
        assert r in world.entities by {
          WithoutMembers(es0, gone);
          assert r !in near[..i];
        }
        CollectEntry(world, r.item, es0, gone);
      }
    }

    /** Collect on an entry of a list that is `es0` without `gone`: the item joins
        `gone`. */
    method CollectEntry(world: World, it: Item, ghost es0: seq<EntityRef>, ghost gone: set<EntityRef>)
      requires world.player == this && world.Valid() && ItemRef(it) in world.entities
      requires Distinct(es0) && world.entities == Without(es0, gone)
      modifies this`inventory, unit`maxHP, unit`hp, unit`damage, unit`cooldown
      modifies world`entities, world.IndexFrame()`index
      ensures world.Valid()
      ensures world.entities == Without(es0, gone + {ItemRef(it)})
      ensures inventory == old(inventory) + [it]
      ensures unit.Stats() == IE.Buff(old(unit.Stats()), it.id)
      ensures world.IndexFrame() <= old(world.IndexFrame())
    {
      Collect(world, it);
      WithoutRemoveAt(es0, gone, old(it.base.index));
    }

    /** Player.update: the unit's frame (move, turn, cooldown), then every item
        within reach of the new position is picked up. The items are those of the
        entity list at the start of the frame. */
    method Update(world: World, dirX: real, dirY: real, delta: int)
      requires world.player == this && world.Valid()
      modifies unit.base`posX, unit.base`posY, unit`facing, unit`cooldownTime
      modifies this`inventory, unit`maxHP, unit`hp, unit`damage, unit`cooldown
      modifies world`entities, world.IndexFrame()`index
      ensures world.Valid()
      ensures (unit.base.posX, unit.base.posY)
              == world.Destination(old(unit.base.posX), old(unit.base.posY), dirX, dirY, delta, unit.speed)
      ensures unit.facing == Left <==> dirX < 0.0
      ensures unit.cooldownTime == Timers.Tick(old(unit.cooldownTime), old(unit.cooldown), delta)
      ensures var x := unit.base.posX;
              var y := unit.base.posY;
              var near := old(world.NearBy(world.entities, INTERACT_RANGE, x, y));
              inventory == old(inventory) + ItemsOf(near)
              && unit.Stats() == IE.BuffAll(old(unit.Stats()), IdsOf(ItemsOf(near)))
              && world.entities == Without(old(world.entities), ItemEntries(near))
      ensures unit.damage >= old(unit.damage)
      ensures old(world.PlayerAlive()) ==> world.PlayerAlive()
      ensures world.IndexFrame() <= old(world.IndexFrame())
    {
      UnsharedEntries(world.entities, inventory, this);
      unit.Update(world, dirX, dirY, delta);
      ghost var x, y := unit.base.posX, unit.base.posY;
      world.NearByKept(world.entities);
      ghost var near := old(world.NearBy(world.entities, INTERACT_RANGE, x, y));
      assert near == world.NearBy(world.entities, INTERACT_RANGE, x, y);
      ghost var s1 := unit.Stats();
      CheckForItem(world);
      IE.BuffAllKeepsAlive(s1, IdsOf(ItemsOf(near)));
    }

    /** Player.checkForItem: every item within reach, in list order, joins the
        inventory with its buff and leaves the world; every other entry stays where
        it was. */
    method CheckForItem(world: World)
      requires world.player == this && world.Valid()
      modifies this`inventory, unit`maxHP, unit`hp, unit`damage, unit`cooldown
      modifies world`entities, world.IndexFrame()`index
      ensures world.Valid()
      ensures var near := old(world.NearBy(world.entities, INTERACT_RANGE, unit.base.posX, unit.base.posY));
              inventory == old(inventory) + ItemsOf(near)
              && unit.Stats() == IE.BuffAll(old(unit.Stats()), IdsOf(ItemsOf(near)))
              && world.entities == Without(old(world.entities), ItemEntries(near))
      ensures world.IndexFrame() <= old(world.IndexFrame())
    {
      var near := world.GetNearByEntity(INTERACT_RANGE, unit.base.posX, unit.base.posY);
      world.NearByKept(world.entities);
      CheckNear(world, near);
    }

    /** checkForItem once the entries in reach are known. */
    method CheckNear(world: World, near: seq<EntityRef>)
      requires world.player == this && world.Valid()
      requires near == world.NearBy(world.entities, INTERACT_RANGE, unit.base.posX, unit.base.posY)
      modifies this`inventory, unit`maxHP, unit`hp, unit`damage, unit`cooldown
      modifies world`entities, world.IndexFrame()`index
      ensures world.Valid()
      ensures inventory == old(inventory) + ItemsOf(near)
      ensures unit.Stats() == IE.BuffAll(old(unit.Stats()), IdsOf(ItemsOf(near)))
      ensures world.entities == Without(old(world.entities), ItemEntries(near))
      ensures world.IndexFrame() <= old(world.IndexFrame())
    {
      ghost var es0 := world.entities;
      world.NearByOfValid(es0, inventory, this, INTERACT_RANGE, unit.base.posX, unit.base.posY);
      assert near[..0] == [];
      assert ItemEntries(near[..0]) == {} && ItemsOf(near[..0]) == [];
      assert IdsOf([]) == [];
      assert inventory + [] == inventory;
      WithoutNothing(es0);
      PickUpAll(world, near, es0, inventory, unit.Stats());
      assert near[..|near|] == near;
    }

    /** The checkForItem loop over `near`, starting from the list `es0`, the
        inventory `inv0` and the stats `s0`. */
    method PickUpAll(world: World, near: seq<EntityRef>, ghost es0: seq<EntityRef>, ghost inv0: seq<Item>,
                     ghost s0: IE.Stats)
      requires world.player == this && world.Valid()
      requires Distinct(es0) && Distinct(near) && forall k :: 0 <= k < |near| ==> near[k] in es0
      requires world.entities == Without(es0, ItemEntries(near[..0]))
      requires inventory == inv0 + ItemsOf(near[..0])
      requires unit.Stats() == IE.BuffAll(s0, IdsOf(ItemsOf(near[..0])))
      modifies this`inventory, unit`maxHP, unit`hp, unit`damage, unit`cooldown
      modifies world`entities, world.IndexFrame()`index
      ensures world.Valid()
      ensures world.entities == Without(es0, ItemEntries(near[..|near|]))
      ensures inventory == inv0 + ItemsOf(near[..|near|])
      ensures unit.Stats() == IE.BuffAll(s0, IdsOf(ItemsOf(near[..|near|])))
      ensures world.IndexFrame() <= old(world.IndexFrame())
    {
      var i := 0;
      while i < |near|
        invariant 0 <= i <= |near|
        invariant world.Valid()
        invariant world.entities == Without(es0, ItemEntries(near[..i]))
        invariant inventory == inv0 + ItemsOf(near[..i])
        invariant unit.Stats() == IE.BuffAll(s0, IdsOf(ItemsOf(near[..i])))
        invariant world.IndexFrame() <= old(world.IndexFrame())
      {
        PickUp(world, near, i, es0, inv0, s0);
        i := i + 1;
      }
    }

    /** Player.attackUnit: every monster within reach, in list order, is hit with a
        fresh call of `attack`, so once the cooldown has restarted the later ones
        take 0 unless the cooldown itself is 0; a monster whose HP drops below 1
        leaves the list, and nothing else does. The cooldown timer either stays as it
        was or, when it had run out, restarts at 0. `attack` needs a non-negative
        damage only when it fires. */
    method AttackUnit(world: World)
      requires world.player == this && world.Valid() && (unit.cooldownTime == unit.cooldown ==> unit.damage >= 0)
      modifies unit`cooldownTime, world`entities, world.IndexFrame()`index
      modifies MonsterUnitSet(world.NearBy(world.entities, INTERACT_RANGE, unit.base.posX, unit.base.posY))`hp
      modifies PassiveSet(world.NearBy(world.entities, INTERACT_RANGE, unit.base.posX, unit.base.posY))`safeTime
      ensures world.Valid()
      ensures var near := old(world.NearBy(world.entities, INTERACT_RANGE, unit.base.posX, unit.base.posY));
              world.entities == Without(old(world.entities), Fallen(near))
              && Startled(PassiveSet(near))
      ensures unit.cooldownTime == old(unit.cooldownTime) || (old(unit.cooldownTime) == unit.cooldown && unit.cooldownTime == 0)
      ensures world.IndexFrame() <= old(world.IndexFrame())
    {
      var near := world.GetNearByEntity(INTERACT_RANGE, unit.base.posX, unit.base.posY);
      world.NearByKept(world.entities);
      AttackNear(world, near);
    }

    /** attackUnit once the entries in reach are known. */
    method AttackNear(world: World, near: seq<EntityRef>)
      requires world.player == this && world.Valid() && (unit.cooldownTime == unit.cooldown ==> unit.damage >= 0)
      requires near == world.NearBy(world.entities, INTERACT_RANGE, unit.base.posX, unit.base.posY)
      modifies unit`cooldownTime, world`entities, world.IndexFrame()`index
      modifies MonsterUnitSet(near)`hp, PassiveSet(near)`safeTime
      ensures world.Valid()
      ensures world.entities == Without(old(world.entities), Fallen(near))
      ensures Startled(PassiveSet(near))
      ensures unit.cooldownTime == old(unit.cooldownTime) || (old(unit.cooldownTime) == unit.cooldown && unit.cooldownTime == 0)
      ensures world.IndexFrame() <= old(world.IndexFrame())
    {
      ghost var es0 := world.entities;
      world.NearByOfValid(es0, inventory, this, INTERACT_RANGE, unit.base.posX, unit.base.posY);
      assert near[..0] == [];
      assert Fallen(near[..0]) == {};
      WithoutNothing(es0);
      AttackAll(world, near, es0, world.IndexFrame(), MonsterUnitSet(near), PassiveSet(near));
      assert near[..|near|] == near;
    }

    /** The attackUnit loop over `near`, starting from the list `es0`. */
    method AttackAll(world: World, near: seq<EntityRef>, ghost es0: seq<EntityRef>, ghost indexSet: set<Entity>,
                     ghost hpSet: set<Unit>, ghost safeSet: set<PassiveMonster>)
      requires world.player == this && world.Valid() && (unit.cooldownTime == unit.cooldown ==> unit.damage >= 0)
      requires Distinct(es0) && BasesApart(es0) && Distinct(near) && forall k :: 0 <= k < |near| ==> near[k] in es0
      requires world.entities == Without(es0, Fallen(near[..0])) && world.IndexFrame() <= indexSet
      requires MonsterUnitSet(near) <= hpSet && PassiveSet(near) <= safeSet
      modifies unit`cooldownTime, world`entities, indexSet`index, hpSet`hp, safeSet`safeTime
      ensures world.Valid()
      ensures world.entities == Without(es0, Fallen(near[..|near|]))
      ensures Startled(PassiveSet(near[..|near|]))
      ensures unit.cooldownTime == old(unit.cooldownTime) || (old(unit.cooldownTime) == unit.cooldown && unit.cooldownTime == 0)
      ensures world.IndexFrame() <= indexSet
    {
      var i := 0;
      while i < |near|
        invariant 0 <= i <= |near|
        invariant world.Valid()
        invariant world.entities == Without(es0, Fallen(near[..i]))
        invariant Startled(PassiveSet(near[..i]))
        invariant unit.cooldownTime == old(unit.cooldownTime) || (old(unit.cooldownTime) == unit.cooldown && unit.cooldownTime == 0)
        invariant unit.cooldownTime == unit.cooldown ==> unit.damage >= 0
        invariant world.IndexFrame() <= indexSet
      {
        AttackStep(world, near, i, es0, indexSet, hpSet, safeSet);
        i := i + 1;
      }
    }

    /** The body of the attackUnit loop for entry `i` of `near`: a monster is hit
        with what `attack` deals, anything else is passed over. */
    method AttackStep(world: World, near: seq<EntityRef>, i: int, ghost es0: seq<EntityRef>, ghost indexSet: set<Entity>,
                      ghost hpSet: set<Unit>, ghost safeSet: set<PassiveMonster>)
      requires world.player == this && world.Valid() && (unit.cooldownTime == unit.cooldown ==> unit.damage >= 0) && 0 <= i < |near|
      requires Distinct(es0) && BasesApart(es0) && Distinct(near) && forall k :: 0 <= k < |near| ==> near[k] in es0
      requires world.entities == Without(es0, Fallen(near[..i])) && world.IndexFrame() <= indexSet
      requires MonsterUnitSet(near) <= hpSet && PassiveSet(near) <= safeSet
      requires Startled(PassiveSet(near[..i]))
      modifies unit`cooldownTime, world`entities, indexSet`index, hpSet`hp, safeSet`safeTime
      ensures world.Valid()
      ensures world.entities == Without(es0, Fallen(near[..i + 1]))
      ensures Startled(PassiveSet(near[..i + 1]))
      ensures unit.cooldownTime == old(unit.cooldownTime) || (old(unit.cooldownTime) == unit.cooldown && unit.cooldownTime == 0)
      ensures world.IndexFrame() <= indexSet
    {
      if near[i].IsMonster() {
        var hit := unit.Attack();
        FallenKept(near[..i]);
        ghost var done := PassiveSet(near[..i]);
        PassiveSetPrefix(near, i);
        AttackMonster(world, near, i, es0, hit);
        assert Startled(done);
      } else {
        assert near[..i + 1] == near[..i] + [near[i]];
        assert Fallen(near[..i + 1]) == Fallen(near[..i]);
        PassiveSetPrefix(near, i);
      }
    }

    /** One monster of the list takes a hit; it leaves the world exactly when it falls. */
    method AttackMonster(world: World, near: seq<EntityRef>, i: int, ghost es0: seq<EntityRef>, hit: int)
      requires world.player == this && world.Valid() && 0 <= i < |near| && near[i].IsMonster()
      requires Distinct(es0) && BasesApart(es0) && Distinct(near) && forall k :: 0 <= k < |near| ==> near[k] in es0
      requires world.entities == Without(es0, Fallen(near[..i]))
      modifies world`entities, world.IndexFrame()`index, near[i].UnitOf()`hp
      modifies (if near[i].PassiveRef? then {near[i].passive} else {})`safeTime
      ensures world.Valid()
      ensures world.entities == Without(es0, Fallen(near[..i + 1]))
      ensures near[i].UnitOf().hp == old(near[i].UnitOf().hp) - hit
      ensures near[i].PassiveRef? ==> near[i].passive.safeTime == 0
      ensures world.IndexFrame() <= old(world.IndexFrame())
    {
      var r := near[i];
      ghost var gone := Fallen(near[..i]);
      assert near[..i + 1] == near[..i] + [r];
      StrikeTarget(es0, near, i);
      StrikeEntry(world, r, hit, es0, gone);
      FallenKept(near[..i]);
      if r.UnitOf().hp < 1 {
        assert Fallen(near[..i + 1]) == gone + {r};
      } else {
        assert Fallen(near[..i + 1]) == gone;
      }
    }

    /** Player.interactVillager: every villager within reach is talked to once, in
        list order. The entity list stays as it is, and a living player stays alive. */
    method InteractVillager(world: World)
      requires world.player == this && world.Valid()
      modifies VillagerSet(world.NearBy(world.entities, INTERACT_RANGE, unit.base.posX, unit.base.posY))`talkTimer
      modifies VillagerSet(world.NearBy(world.entities, INTERACT_RANGE, unit.base.posX, unit.base.posY))`dialogue
      modifies unit`hp, this`inventory
      ensures world.Valid()
      ensures old(world.PlayerAlive()) ==> world.PlayerAlive()
      ensures forall v :: v in old(VillagerSet(world.NearBy(world.entities, INTERACT_RANGE, unit.base.posX, unit.base.posY))) ==>
                Answered(old(v.talkTimer), v.talkTimer)
    {
      var near := world.GetNearByEntity(INTERACT_RANGE, unit.base.posX, unit.base.posY);
      world.NearByKept(world.entities);
      ghost var es0 := world.entities;
      world.NearByOfValid(es0, inventory, this, INTERACT_RANGE, unit.base.posX, unit.base.posY);
      TalkAll(world, near, es0);
      assert near[..|near|] == near;
    }

    /** The interactVillager loop over `near`. */
    method TalkAll(world: World, near: seq<EntityRef>, ghost es0: seq<EntityRef>)
      requires world.player == this && world.Valid()
      requires BasesApart(es0) && Distinct(near) && forall k :: 0 <= k < |near| ==> near[k] in es0
      modifies VillagerSet(near)`talkTimer, VillagerSet(near)`dialogue, unit`hp, this`inventory
      ensures world.Valid()
      ensures old(world.PlayerAlive()) ==> world.PlayerAlive()
      ensures forall v :: v in VillagerSet(near[..|near|]) ==> Answered(old(v.talkTimer), v.talkTimer)
    {
      var i := 0;
      assert VillagerSet(near[..0]) == {};
      while i < |near|
        invariant 0 <= i <= |near|
        invariant world.Valid()
        invariant old(world.PlayerAlive()) ==> world.PlayerAlive()
        invariant forall v :: v in VillagerSet(near[..i]) ==> Answered(old(v.talkTimer), v.talkTimer)
        invariant forall v :: v in VillagerSet(near) && v !in VillagerSet(near[..i]) ==> v.talkTimer == old(v.talkTimer)
      {
        if near[i].VillagerRef? {
          VillagerFirst(es0, near, i);
          near[i].villager.Talk(world, this);
        } else {
          assert near[..i + 1] == near[..i] + [near[i]];
          assert VillagerSet(near[..i + 1]) == VillagerSet(near[..i]);
        }
        i := i + 1;
      }
    }

    /** The player is never removed from the world: a fatal hit respawns it. */
    method OnAttack(world: World, amount: int)
      modifies unit`hp, unit.base`posX, unit.base`posY
      ensures Struck(old(unit.hp), old(unit.base.posX), old(unit.base.posY), amount)
      ensures unit.maxHP >= 1 ==> unit.hp >= 1
      ensures amount >= 0 && old(unit.hp) <= unit.maxHP ==> unit.hp <= unit.maxHP
    {
      unit.TakeDamage(amount);
      if unit.hp < 1 {
        unit.base.posX := RESPAWN_POS_X;
        unit.base.posY := RESPAWN_POS_Y;
        unit.hp := unit.maxHP;
      }
    }
  }

  lemma FirstWithAt(items: seq<Item>, id: int, i: nat)
    requires i < |items| && items[i].id == id
    requires forall j :: 0 <= j < i ==> items[j].id != id
    ensures FirstWith(items, id) == i
  {
    var k := FirstWith(items, id);
    assert k <= i;
  }

  // ---------------------------------------------------------------------------
  // Villager

  class Villager {
    const unit: Unit
    var dialogue: string
    var talkTimer: int

    /** A villager starts idle: nothing said and the talk timer already run out. The
        damage it is given is not stored, and its speed and cooldown timer stay 0. */
    constructor (x: real, y: real, maxHP: int, damage: int, cooldown: int, name: string)
      ensures fresh(unit) && fresh(unit.base)
      ensures unit.base.posX == x && unit.base.posY == y && unit.base.index == 0
      ensures unit.Stats() == IE.Stats(maxHP, maxHP, 0, cooldown)
      ensures unit.cooldownTime == 0 && unit.speed == 0.0 && unit.name == name && unit.facing == Right
      ensures talkTimer == Dialogue.TALK_TIME && dialogue == ""
    {
      unit := new Unit(x, y, maxHP, 0, cooldown, 0, 0.0, name);
      dialogue := "";
      talkTimer := Dialogue.TALK_TIME;
    }

    /** A line stays up while the timer runs; once it has run out the line is cleared. */
    method DialogueTimer(delta: int)
      modifies this`talkTimer, this`dialogue
      ensures talkTimer == Timers.Tick(old(talkTimer), Dialogue.TALK_TIME, delta)
      ensures old(talkTimer) < Dialogue.TALK_TIME ==> talkTimer == old(talkTimer) + delta && dialogue == old(dialogue)
      ensures old(talkTimer) >= Dialogue.TALK_TIME ==> talkTimer == Dialogue.TALK_TIME && dialogue == ""
    {
      if talkTimer < Dialogue.TALK_TIME {
        talkTimer := talkTimer + delta;
      } else if talkTimer != Dialogue.TALK_TIME {
        talkTimer := Dialogue.TALK_TIME;
        dialogue := "";
      } else {
        dialogue := "";
      }
    }

    method Update(world: World, dirX: real, dirY: real, delta: int)
      modifies unit.base`posX, unit.base`posY, unit`facing, unit`cooldownTime, this`talkTimer, this`dialogue
      ensures (unit.base.posX, unit.base.posY)
              == world.Destination(old(unit.base.posX), old(unit.base.posY), dirX, dirY, delta, unit.speed)
      ensures unit.facing == Left <==> dirX < 0.0
      ensures unit.cooldownTime == Timers.Tick(old(unit.cooldownTime), unit.cooldown, delta)
      ensures talkTimer == Timers.Tick(old(talkTimer), Dialogue.TALK_TIME, delta)
      ensures dialogue == if old(talkTimer) < Dialogue.TALK_TIME then old(dialogue) else ""
    {
      unit.Update(world, dirX, dirY, delta);
      DialogueTimer(delta);
    }

    /** Talking starts a new line only when the previous one has run out. Elvira heals
        the player; Garth names the first treasure still missing; the Prince takes the
        elixir, and thanks the player once it is gone from the world. */
    method Talk(world: World, player: Player)
      requires world.player == player && world.Valid()
      modifies this`talkTimer, this`dialogue, player.unit`hp, player`inventory
      ensures world.Valid()
      ensures old(talkTimer) != Dialogue.TALK_TIME ==>
                talkTimer == old(talkTimer) && dialogue == old(dialogue)
                && player.unit.hp == old(player.unit.hp) && player.inventory == old(player.inventory)
      ensures old(talkTimer) == Dialogue.TALK_TIME ==> talkTimer == 0
      ensures old(talkTimer) == Dialogue.TALK_TIME && unit.name == Dialogue.ELVIRA ==>
                dialogue == Dialogue.ElviraLine(old(player.unit.hp), player.unit.maxHP)
                && player.unit.hp == player.unit.maxHP && player.inventory == old(player.inventory)
      ensures old(talkTimer) == Dialogue.TALK_TIME && unit.name == Dialogue.GARTH ==>
                dialogue == Dialogue.GarthLine(Holds(player.inventory, IE.AMULET_ID), Holds(player.inventory, IE.SWORD_ID),
                                               Holds(player.inventory, IE.TOME_ID))
                && player.unit.hp == old(player.unit.hp) && player.inventory == old(player.inventory)
      ensures old(talkTimer) == Dialogue.TALK_TIME && unit.name == Dialogue.PRINCE ==>
                dialogue == Dialogue.PrinceLine(Holds(old(player.inventory), IE.ELIXIR_ID), ElixirInWorld(world.entities))
                && player.unit.hp == old(player.unit.hp)
                && player.inventory == if Holds(old(player.inventory), IE.ELIXIR_ID)
                                       then RemoveAt(old(player.inventory), FirstWith(old(player.inventory), IE.ELIXIR_ID))
                                       else old(player.inventory)
      ensures old(talkTimer) == Dialogue.TALK_TIME && unit.name !in {Dialogue.ELVIRA, Dialogue.GARTH, Dialogue.PRINCE} ==>
                dialogue == old(dialogue) && player.unit.hp == old(player.unit.hp) && player.inventory == old(player.inventory)
    {
      if talkTimer == Dialogue.TALK_TIME {
        Respond(world, player);
        talkTimer := 0;
      }
    }

    /** What a villager does when a new line starts, by name. */
    method Respond(world: World, player: Player)
      requires world.player == player && world.Valid() && talkTimer == Dialogue.TALK_TIME
      modifies this`dialogue, player.unit`hp, player`inventory
      ensures world.Valid()
      ensures unit.name == Dialogue.ELVIRA ==>
                dialogue == Dialogue.ElviraLine(old(player.unit.hp), player.unit.maxHP)
                && player.unit.hp == player.unit.maxHP && player.inventory == old(player.inventory)
      ensures unit.name == Dialogue.GARTH ==>
                dialogue == Dialogue.GarthLine(Holds(player.inventory, IE.AMULET_ID), Holds(player.inventory, IE.SWORD_ID),
                                               Holds(player.inventory, IE.TOME_ID))
                && player.unit.hp == old(player.unit.hp) && player.inventory == old(player.inventory)
      ensures unit.name == Dialogue.PRINCE ==>
                dialogue == Dialogue.PrinceLine(Holds(old(player.inventory), IE.ELIXIR_ID), ElixirInWorld(world.entities))
                && player.unit.hp == old(player.unit.hp)
                && player.inventory == if Holds(old(player.inventory), IE.ELIXIR_ID)
                                       then RemoveAt(old(player.inventory), FirstWith(old(player.inventory), IE.ELIXIR_ID))
                                       else old(player.inventory)
      ensures unit.name !in {Dialogue.ELVIRA, Dialogue.GARTH, Dialogue.PRINCE} ==>
                dialogue == old(dialogue) && player.unit.hp == old(player.unit.hp) && player.inventory == old(player.inventory)
    {
      Dialogue.NamesDiffer();
      if unit.name == Dialogue.ELVIRA {
        Heal(player);
      }
      if unit.name == Dialogue.GARTH {
        Guide(player);
      }
      if unit.name == Dialogue.PRINCE && talkTimer == Dialogue.TALK_TIME {
        TakeElixir(world, player);
      }
    }

    /** Elvira's part of a talk: a wounded player is healed to full. */
    method Heal(player: Player)
      modifies this`dialogue, player.unit`hp
      ensures dialogue == Dialogue.ElviraLine(old(player.unit.hp), player.unit.maxHP)
      ensures player.unit.hp == player.unit.maxHP
    {
      if player.unit.hp == player.unit.maxHP {
        dialogue := Dialogue.ELVIRA_HP_FULL;
      } else {
        player.unit.hp := player.unit.maxHP;
        dialogue := Dialogue.ELVIRA_HP_HEALED;
      }
    }

    /** Garth's part of a talk: he names the first of amulet, sword and tome that the
        player does not hold. */
    method Guide(player: Player)
      requires InventorySound(player.inventory)
      modifies this`dialogue
      ensures dialogue == Dialogue.GarthLine(Holds(player.inventory, IE.AMULET_ID), Holds(player.inventory, IE.SWORD_ID),
                                             Holds(player.inventory, IE.TOME_ID))
    {
      var amulet := player.FindItem(IE.AMULET_ID);
      var sword := player.FindItem(IE.SWORD_ID);
      var tome := player.FindItem(IE.TOME_ID);
      if amulet == ITEM_NOT_FOUND {
        dialogue := Dialogue.GARTH_AMULET;
      } else if sword == ITEM_NOT_FOUND {
        dialogue := Dialogue.GARTH_SWORD;
      } else if tome == ITEM_NOT_FOUND {
        dialogue := Dialogue.GARTH_TOME;
      } else {
        dialogue := Dialogue.GARTH_ALL;
      }
    }

    /** Whether the elixir still lies somewhere in the world's entity list. */
    static method ScanForElixir(es: seq<EntityRef>) returns (found: bool)
      ensures found == ElixirInWorld(es)
    {
      found := false;
      var i := 0;
      while i < |es|
        invariant 0 <= i <= |es|
        invariant found <==> exists j :: 0 <= j < i && IsElixirRef(es[j])
      {
        if es[i].ItemRef? && es[i].item.id == IE.ELIXIR_ID {
          found := true;
        }
        i := i + 1;
      }
    }

    /** The Prince's part of a talk: he takes the elixir from the player, and gives
        thanks also when the elixir is no longer lying anywhere in the world. */
    method TakeElixir(world: World, player: Player)
      requires world.player == player && world.Valid()
      modifies this`dialogue, player`inventory
      ensures world.Valid()
      ensures dialogue == Dialogue.PrinceLine(Holds(old(player.inventory), IE.ELIXIR_ID), ElixirInWorld(world.entities))
      ensures player.inventory == if Holds(old(player.inventory), IE.ELIXIR_ID)
                                  then RemoveAt(old(player.inventory), FirstWith(old(player.inventory), IE.ELIXIR_ID))
                                  else old(player.inventory)
    {
      var found := ScanForElixir(world.entities);
      var elixir := player.FindItem(IE.ELIXIR_ID);
      if elixir != ITEM_NOT_FOUND {
        dialogue := Dialogue.PRINCE_HAS_ELIXIR;
        HandOver(world, player);
      } else if !found {
        dialogue := Dialogue.PRINCE_HAS_ELIXIR;
      } else {
        dialogue := Dialogue.PRINCE_NO_ELIXIR;
      }
    }

    /** The player gives up the elixir: `removeItem` takes out the first elixir, and
        the world stays valid. */
    static method HandOver(world: World, player: Player)
      requires world.player == player && world.Valid() && Holds(player.inventory, IE.ELIXIR_ID)
      modifies player`inventory
      ensures world.Valid()
      ensures player.inventory == RemoveAt(old(player.inventory), FirstWith(old(player.inventory), IE.ELIXIR_ID))
    {
      ghost var inv := player.inventory;
      ghost var k := FirstWith(inv, IE.ELIXIR_ID);
      assert k < |inv| && IsElixir(inv[k]) && StoredIndex(inv, IE.ELIXIR_ID) == k by {
        FirstWithFinds(inv, IE.ELIXIR_ID);
      }
      player.RemoveItem(IE.ELIXIR_ID);
      world.DroppedValid(inv, k);
    }
  }

  /** The player as World.init makes it from the player line: at the start point,
      with the row-0 statistics and full HP, carrying nothing. */
  ghost predicate Started(p: Player, start: Spawn.Start)
    reads p`inventory, p.unit`maxHP, p.unit`hp, p.unit`damage, p.unit`cooldown, p.unit.base`posX, p.unit.base`posY
  {
    p.unit.Stats() == IE.Stats(start.hp, start.hp, start.damage, start.cooldown)
    && p.unit.base.posX == start.x as real && p.unit.base.posY == start.y as real
    && p.inventory == []
  }

  /** What World.init leaves in the entity list: the four items in identifier order
      at their positions, then one unit per recruit, in order. */
  ghost predicate Loaded(es: seq<EntityRef>, itemPositions: seq<(int, int)>, units: seq<Spawn.Recruit>)
    reads BaseSet(es)`posX, BaseSet(es)`posY
    reads UnitSet(es)`maxHP, UnitSet(es)`hp, UnitSet(es)`cooldown, UnitSet(es)`damage
  {
    |itemPositions| == Spawn.NUM_ITEMS && |es| == Spawn.NUM_ITEMS + |units|
    && (forall k :: 0 <= k < Spawn.NUM_ITEMS ==>
          es[k].ItemRef? && es[k].item.id == k
          && es[k].Base().posX == itemPositions[k].0 as real && es[k].Base().posY == itemPositions[k].1 as real)
    && (forall j :: 0 <= j < |units| ==> es[Spawn.NUM_ITEMS + j] in es && Recruited(es[Spawn.NUM_ITEMS + j], units[j]))
  }

  /** Every aggressive monster World.init makes has the damage of its recruit, so
      when all recruits share a damage of at least 0 none of them can throw. */
  lemma LoadedArmed(es: seq<EntityRef>, itemPositions: seq<(int, int)>, units: seq<Spawn.Recruit>, d: int)
    requires Loaded(es, itemPositions, units)
    requires forall u :: u in units ==> u.damage == d
    ensures d >= 0 ==> forall r :: r in es && r.AggressiveRef? ==> r.aggressive.unit.damage >= 0
  {
    forall r | r in es && r.AggressiveRef?
      ensures r.aggressive.unit.damage == d
    {
      var k :| 0 <= k < |es| && es[k] == r;
      assert k >= Spawn.NUM_ITEMS;
      assert Recruited(es[k], units[k - Spawn.NUM_ITEMS]);
      assert units[k - Spawn.NUM_ITEMS] in units;
    }
  }

  /** The switch of World.init on a unit's type: a villager, a passive monster or an
      aggressive monster, made from the recruit's position, statistics and name. */
  method MakeUnit(u: Spawn.Recruit) returns (r: EntityRef)
    ensures Recruited(r, u) && !IsElixirRef(r)
    ensures r.PassiveRef? ==> r.passive.WanderValid()
    ensures fresh(r.Base()) && fresh(r.UnitOf())
  {
    match u.kind {
      case NPC =>
        var v := new Villager(u.x as real, u.y as real, u.hp, u.damage, u.cooldown, u.name);
        r := VillagerRef(v);
      case Passive =>
        var m := new PassiveMonster(u.x as real, u.y as real, u.hp, u.damage, u.cooldown, u.name);
        r := PassiveRef(m);
      case Aggressive =>
        var m := new AggressiveMonster(u.x as real, u.y as real, u.hp, u.damage, u.cooldown, u.name);
        r := AggressiveRef(m);
    }
  }

  /** The entity list World.init builds: the items, then the units. */
  method Populate(itemPositions: seq<(int, int)>, units: seq<Spawn.Recruit>, p: Player) returns (es: seq<EntityRef>)
    requires |itemPositions| == Spawn.NUM_ITEMS
    ensures Loaded(es, itemPositions, units)
    ensures Layout(es, [], p) && PassivesSound(es)
    ensures forall r :: r in es ==> fresh(r.Base())
  {
    es := SpawnItems(itemPositions, p);
    ghost var items := es;
    es := SpawnUnits(es, units, p);
    assert es[..Spawn.NUM_ITEMS] == items;
    forall r | r in es
      ensures fresh(r.Base())
    {
      var k :| 0 <= k < |es| && es[k] == r;
      if k < Spawn.NUM_ITEMS {
        assert items[k] == r;
      }
    }
    var none: seq<Item> := [];
    assert CountWhere(none, IsElixir) == 0;
  }

  /** Item `k` of `es` is the item numbered `k`, at the `k`-th item position. */
  ghost predicate ItemsPlaced(es: seq<EntityRef>, itemPositions: seq<(int, int)>)
    reads BaseSet(es)`posX, BaseSet(es)`posY
  {
    |es| <= |itemPositions|
    && forall k :: 0 <= k < |es| ==>
         es[k].ItemRef? && es[k].item.id == k
         && es[k].Base().posX == itemPositions[k].0 as real && es[k].Base().posY == itemPositions[k].1 as real
  }

  /** The first loop of World.init: item `i` at the `i`-th item position, in order. */
  method SpawnItems(itemPositions: seq<(int, int)>, p: Player) returns (es: seq<EntityRef>)
    requires |itemPositions| == Spawn.NUM_ITEMS
    ensures |es| == Spawn.NUM_ITEMS && ItemsPlaced(es, itemPositions)
    ensures Unshared(es, [], p) && CountWhere(es, IsElixirRef) == 1 && PassivesSound(es)
    ensures forall k :: 0 <= k < |es| ==> fresh(es[k].Base())
  {
    es := [];
    var i := 0;
    ghost var made: set<Entity> := {};
    while i < Spawn.NUM_ITEMS
      invariant 0 <= i <= Spawn.NUM_ITEMS && |es| == i
      invariant ItemsPlaced(es, itemPositions) && Unshared(es, [], p)
      invariant CountWhere(es, IsElixirRef) == if i > IE.ELIXIR_ID then 1 else 0
      invariant fresh(made) && forall k :: 0 <= k < |es| ==> es[k].Base() in made
    {
      var r := PlaceItem(es, itemPositions, p);
      es := es + [r];
      made := made + {r.Base()};
      i := i + 1;
    }
  }

  /** One round of the first loop of World.init: a new item, numbered by its place in
      the list, goes to the end of the list at the next item position. */
  method PlaceItem(es: seq<EntityRef>, itemPositions: seq<(int, int)>, p: Player) returns (r: EntityRef)
    requires |es| < |itemPositions| && ItemsPlaced(es, itemPositions) && Unshared(es, [], p)
    ensures ItemsPlaced(es + [r], itemPositions) && fresh(r.Base())
    ensures Unshared(es + [r], [], p)
    ensures CountWhere(es + [r], IsElixirRef) == CountWhere(es, IsElixirRef) + if |es| == IE.ELIXIR_ID then 1 else 0
  {
    var pos := itemPositions[|es|];
    var item := new Item(pos.0, pos.1, |es|);
    r := ItemRef(item);
    assert (es + [r])[..|es|] == es;
    UnsharedAppend(es, r, p);
  }

  /** The second loop of World.init: one new unit per recruit, appended in order. */
  method SpawnUnits(es0: seq<EntityRef>, units: seq<Spawn.Recruit>, p: Player) returns (es: seq<EntityRef>)
    requires Unshared(es0, [], p) && PassivesSound(es0)
    ensures |es| == |es0| + |units| && es[..|es0|] == es0 && Enlisted(es, |es0|, units)
    ensures Unshared(es, [], p) && CountWhere(es, IsElixirRef) == CountWhere(es0, IsElixirRef) && PassivesSound(es)
    ensures forall k :: |es0| <= k < |es| ==> fresh(es[k].Base())
  {
    es := es0;
    var j := 0;
    ghost var made: set<Entity> := {};
    while j < |units|
      invariant 0 <= j <= |units| && |es| == |es0| + j && es[..|es0|] == es0
      invariant Enlisted(es, |es0|, units) && Unshared(es, [], p) && PassivesSound(es)
      invariant CountWhere(es, IsElixirRef) == CountWhere(es0, IsElixirRef)
      invariant fresh(made) && forall k :: |es0| <= k < |es| ==> es[k].Base() in made
    {
      ghost var before := es;
      var r := EnlistUnit(es, |es0|, units, p);
      es := es + [r];
      made := made + {r.Base()};
      assert es[..|es0|] == before[..|es0|];
      j := j + 1;
    }
  }

  /** The entries of `es` from `start` on are the units made for `units`, in order. */
  ghost predicate Enlisted(es: seq<EntityRef>, start: nat, units: seq<Spawn.Recruit>)
    reads BaseSet(es)`posX, BaseSet(es)`posY
    reads UnitSet(es)`maxHP, UnitSet(es)`hp, UnitSet(es)`cooldown, UnitSet(es)`damage
  {
    start <= |es| <= start + |units|
    && forall k :: start <= k < |es| ==> Recruited(es[k], units[k - start])
  }

  /** One round of the second loop of World.init: the unit for the next recruit goes
      to the end of the list. */
  method EnlistUnit(es: seq<EntityRef>, start: nat, units: seq<Spawn.Recruit>, p: Player) returns (r: EntityRef)
    requires |es| < start + |units| && Enlisted(es, start, units)
    requires Unshared(es, [], p) && PassivesSound(es)
    ensures Enlisted(es + [r], start, units) && fresh(r.Base())
    ensures Unshared(es + [r], [], p) && PassivesSound(es + [r])
    ensures CountWhere(es + [r], IsElixirRef) == CountWhere(es, IsElixirRef)
  {
    r := MakeUnit(units[|es| - start]);
    assert (es + [r])[..|es|] == es;
    UnsharedAppend(es, r, p);
  }

  /** A unit made as `u` prescribes: its class, start, stats and name. Villagers and
      passive monsters do not keep the damage they are given. */
  ghost predicate Recruited(r: EntityRef, u: Spawn.Recruit)
    reads r.Base()`posX, r.Base()`posY
    reads (if r.IsUnit() then {r.UnitOf()} else {})`maxHP, (if r.IsUnit() then {r.UnitOf()} else {})`hp
    reads (if r.IsUnit() then {r.UnitOf()} else {})`cooldown, (if r.IsUnit() then {r.UnitOf()} else {})`damage
  {
    r.IsUnit()
    && (match u.kind
        case NPC => r.VillagerRef?
        case Passive => r.PassiveRef?
        case Aggressive => r.AggressiveRef?)
    && r.Base().posX == u.x as real && r.Base().posY == u.y as real
    && r.UnitOf().maxHP == u.hp && r.UnitOf().hp == u.hp && r.UnitOf().cooldown == u.cooldown
    && r.UnitOf().damage == (if r.AggressiveRef? then u.damage else 0)
    && r.UnitOf().name == u.name
  }

  predicate ElixirInWorld(es: seq<EntityRef>)
  {
    exists k :: 0 <= k < |es| && IsElixirRef(es[k])
  }

  // ---------------------------------------------------------------------------
  // Monsters

  /** Scaling the offset (a, b) by k / d keeps it on the same line, and with d > 0 the
      scaled vector points the same way as (a, b) for k > 0 and the other way for k < 0. */
  lemma ScaledOffset(a: real, b: real, d: real, k: real, m0: real, m1: real)
    requires d != 0.0 && m0 == k * a / d && m1 == k * b / d
    ensures m0 * b == m1 * a
    ensures d > 0.0 && k > 0.0 ==> a * m0 + b * m1 >= 0.0
    ensures d > 0.0 && k < 0.0 ==> a * m0 + b * m1 <= 0.0
  {
    assert m0 * d == k * a;
    assert m1 * d == k * b;
    assert (m0 * b) * d == (m1 * a) * d;
    var dot := a * m0 + b * m1;
    assert dot * d == k * (a * a + b * b);
    assert a * a + b * b >= 0.0;
  }

  /** Monster.AI: the offset from (selfX, selfY) to (posX, posY) over the distance,
      turned around for a passive monster. The result lies on the line through the
      two points; for a positive distance an aggressive monster's heading points
      toward (posX, posY) and a passive one's away from it. A zero distance gives no
      movement. */
  function AI(posX: real, posY: real, selfX: real, selfY: real, distance: real, aggressive: int): (m: (real, real))
    ensures distance == 0.0 ==> m == (0.0, 0.0)
    ensures m.0 * (posY - selfY) == m.1 * (posX - selfX)
    ensures distance > 0.0 && aggressive > 0 ==> (posX - selfX) * m.0 + (posY - selfY) * m.1 >= 0.0
    ensures distance > 0.0 && aggressive < 0 ==> (posX - selfX) * m.0 + (posY - selfY) * m.1 <= 0.0
  {
    if distance == 0.0 then (0.0, 0.0)
    else
      var k, a, b := aggressive as real, posX - selfX, posY - selfY;
      var m0, m1 := k * a / distance, k * b / distance;
      ScaledOffset(a, b, distance, k, m0, m1);
      (m0, m1)
  }

  class PassiveMonster {
    const unit: Unit
    var wanderTime: int
    var safeTime: int
    var wanderX: int
    var wanderY: int

    predicate WanderValid()
      reads this`wanderX, this`wanderY
    {
      -1 <= wanderX <= 1 && -1 <= wanderY <= 1
    }

    /** A new passive monster feels safe and picks a direction on its first frame. The
        damage it is given is not stored. */
    constructor (x: real, y: real, maxHP: int, damage: int, cooldown: int, name: string)
      ensures fresh(unit) && fresh(unit.base)
      ensures unit.base.posX == x && unit.base.posY == y && unit.base.index == 0
      ensures unit.Stats() == IE.Stats(maxHP, maxHP, 0, cooldown)
      ensures unit.cooldownTime == cooldown && unit.speed == PASSIVE_MONSTER_SPEED && unit.name == name
      ensures wanderTime == WANDER_TIME && safeTime == SAFE_TIME && WanderValid()
    {
      unit := new Unit(x, y, maxHP, 0, cooldown, cooldown, PASSIVE_MONSTER_SPEED, name);
      wanderTime := WANDER_TIME;
      safeTime := SAFE_TIME;
      wanderX, wanderY := 0, 0;
    }

    /** Keeps the stored direction until the wander timer runs out, then draws each
        component from {-1, 0, 1} and restarts the timer. */
    method Wander(delta: int) returns (mx: real, my: real)
      modifies this`wanderTime, this`wanderX, this`wanderY
      ensures old(wanderTime) < WANDER_TIME ==>
                wanderTime == old(wanderTime) + delta && wanderX == old(wanderX) && wanderY == old(wanderY)
      ensures old(wanderTime) >= WANDER_TIME ==> wanderTime == 0 && WanderValid()
      ensures mx == wanderX as real && my == wanderY as real
    {
      if wanderTime < WANDER_TIME {
        mx, my := wanderX as real, wanderY as real;
        wanderTime := wanderTime + delta;
      } else {
        wanderTime := 0;
        var rx: int :| 0 <= rx < 3;
        var ry: int :| 0 <= ry < 3;
        mx, my := (rx - 1) as real, (ry - 1) as real;
        wanderX := rx - 1;
        wanderY := ry - 1;
      }
    }

    /** Runs along Monster.AI with the passive sign: away from the player, on the
        line through the two of them. */
    method RunAway(world: World) returns (mx: real, my: real)
      ensures (mx, my) == world.Heading(unit.base, PASSIVE_AI)
      ensures var dx := world.player.unit.base.posX - unit.base.posX;
              var dy := world.player.unit.base.posY - unit.base.posY;
              mx * dy == my * dx && (world.DistanceToPlayer(unit.base) > 0.0 ==> dx * mx + dy * my <= 0.0)
    {
      var player := world.player;
      var d := world.distance(unit.base.posX, unit.base.posY, player.unit.base.posX, player.unit.base.posY);
      var heading := AI(player.unit.base.posX, player.unit.base.posY, unit.base.posX, unit.base.posY, d, PASSIVE_AI);
      mx, my := heading.0, heading.1;
    }

    /** Flees from the player until the safe timer runs out, and wanders otherwise. */
    method Update(world: World, dirX: real, dirY: real, delta: int)
      requires unit.base != world.player.unit.base
      modifies this`safeTime, this`wanderTime, this`wanderX, this`wanderY
      modifies unit.base`posX, unit.base`posY, unit`facing, unit`cooldownTime
      ensures safeTime == Timers.Tick(old(safeTime), SAFE_TIME, delta)
      ensures old(safeTime) < SAFE_TIME ==>
                (unit.base.posX, unit.base.posY) == old(world.Flight(unit.base, PASSIVE_AI, delta, unit.speed))
                && wanderTime == old(wanderTime) && wanderX == old(wanderX) && wanderY == old(wanderY)
      ensures old(safeTime) >= SAFE_TIME ==>
                (unit.base.posX, unit.base.posY)
                == world.Destination(old(unit.base.posX), old(unit.base.posY), wanderX as real, wanderY as real, delta, unit.speed)
                && (old(wanderTime) < WANDER_TIME ==>
                      wanderTime == old(wanderTime) + delta && wanderX == old(wanderX) && wanderY == old(wanderY))
                && (old(wanderTime) >= WANDER_TIME ==> wanderTime == 0)
      ensures old(WanderValid()) ==> WanderValid()
      ensures unit.cooldownTime == Timers.Tick(old(unit.cooldownTime), unit.cooldown, delta)
      ensures unit.facing == Left <==>
                (if old(safeTime) < SAFE_TIME then old(world.Heading(unit.base, PASSIVE_AI)).0 else wanderX as real) < 0.0
    {
      var mx, my;
      if safeTime < SAFE_TIME {
        mx, my := RunAway(world);
        safeTime := safeTime + delta;
      } else if safeTime != SAFE_TIME {
        safeTime := SAFE_TIME;
        mx, my := Wander(delta);
      } else {
        mx, my := Wander(delta);
      }
      unit.Update(world, mx, my, delta);
    }

    /** Being hit makes the monster feel unsafe again before the damage is applied. */
    method OnAttack(world: World, amount: int)
      requires world.Valid() && unit.base in BaseSet(world.entities)
      modifies this`safeTime, unit`hp, world`entities, world.IndexFrame()`index
      ensures safeTime == 0
      ensures unit.hp == old(unit.hp) - amount
      ensures world.Valid()
      ensures 0 <= old(unit.base.index) < |old(world.entities)|
      ensures world.entities == if unit.hp < 1 then RemoveAt(old(world.entities), old(unit.base.index)) else old(world.entities)
      ensures unit.base in BaseSet(world.entities) <==> unit.hp >= 1
    {
      safeTime := 0;
      unit.OnAttack(world, amount);
    }
  }

  /** The three answers of AggressiveMonster.chasePlayer to the player's distance. */
  datatype Pursuit = Idle | Approach | Strike

  function Classify(d: real): (p: Pursuit)
    ensures p == Strike <==> d <= ATTACK_RANGE as real
    ensures p == Approach <==> ATTACK_RANGE as real < d <= WALK_RANGE as real
    ensures p == Idle <==> d > WALK_RANGE as real
  {
    if d <= WALK_RANGE as real && d > ATTACK_RANGE as real then Approach
    else if d <= ATTACK_RANGE as real then Strike
    else Idle
  }

  class AggressiveMonster {
    const unit: Unit

    constructor (x: real, y: real, maxHP: int, damage: int, cooldown: int, name: string)
      ensures fresh(unit) && fresh(unit.base)
      ensures unit.base.posX == x && unit.base.posY == y && unit.base.index == 0
      ensures unit.Stats() == IE.Stats(maxHP, maxHP, damage, cooldown)
      ensures unit.cooldownTime == cooldown && unit.speed == AGGRESSIVE_MONSTER_SPEED && unit.name == name
    {
      unit := new Unit(x, y, maxHP, damage, cooldown, cooldown, AGGRESSIVE_MONSTER_SPEED, name);
    }

    /** Out of walking range the monster stands still; within it, it walks toward the
        player; within attack range it stands and hits the player. */
    method ChasePlayer(world: World) returns (mx: real, my: real, ghost dealt: int)
      requires unit.cooldownTime == unit.cooldown ==> unit.damage >= 0
      requires unit.base != world.player.unit.base
      modifies unit`cooldownTime, world.player.unit`hp, world.player.unit.base`posX, world.player.unit.base`posY
      ensures var d := old(world.DistanceToPlayer(unit.base));
              Classify(d) != Strike ==>
                dealt == 0 && unit.cooldownTime == old(unit.cooldownTime) && world.player.unit.hp == old(world.player.unit.hp)
                && world.player.unit.base.posX == old(world.player.unit.base.posX)
                && world.player.unit.base.posY == old(world.player.unit.base.posY)
      ensures var d := old(world.DistanceToPlayer(unit.base));
              Classify(d) == Idle ==> (mx, my) == (0.0, 0.0)
      ensures var d := old(world.DistanceToPlayer(unit.base));
              Classify(d) == Approach ==> (mx, my) == old(world.Heading(unit.base, AGGRESSIVE_AI))
      ensures var d := old(world.DistanceToPlayer(unit.base));
              var dx := old(world.player.unit.base.posX - unit.base.posX);
              var dy := old(world.player.unit.base.posY - unit.base.posY);
              Classify(d) == Approach ==> dx * mx + dy * my >= 0.0 && mx * dy == my * dx
      ensures var d := old(world.DistanceToPlayer(unit.base));
              Classify(d) == Strike ==>
                (mx, my) == (0.0, 0.0)
                && (old(unit.cooldownTime) == unit.cooldown ==> unit.cooldownTime == 0 && 0 <= dealt <= unit.damage)
                && (old(unit.cooldownTime) != unit.cooldown ==> unit.cooldownTime == old(unit.cooldownTime) && dealt == 0)
                && world.player.Struck(old(world.player.unit.hp), old(world.player.unit.base.posX),
                                       old(world.player.unit.base.posY), dealt)
    {
      mx, my, dealt := 0.0, 0.0, 0;
      var player := world.player;
      var d := world.distance(unit.base.posX, unit.base.posY, player.unit.base.posX, player.unit.base.posY);
      if d <= WALK_RANGE as real && d > ATTACK_RANGE as real {
        var heading := AI(player.unit.base.posX, player.unit.base.posY, unit.base.posX, unit.base.posY, d, AGGRESSIVE_AI);
        mx, my := heading.0, heading.1;
      } else if d <= ATTACK_RANGE as real {
        var hit := unit.Attack();
        dealt := hit;
        player.OnAttack(world, hit);
      }
    }

    /** The direction passed in is ignored: the monster chases, then takes the unit
        frame along the chase direction, so a strike's restarted cooldown is ticked
        in the same frame. `dealt` is what the strike took from the player. */
    method Update(world: World, dirX: real, dirY: real, delta: int) returns (ghost dealt: int)
      requires unit.cooldownTime == unit.cooldown ==> unit.damage >= 0
      requires unit.base != world.player.unit.base
      modifies unit`cooldownTime, unit`facing, unit.base`posX, unit.base`posY
      modifies world.player.unit`hp, world.player.unit.base`posX, world.player.unit.base`posY
      ensures var d := old(world.DistanceToPlayer(unit.base));
              (unit.base.posX, unit.base.posY)
              == world.Destination(old(unit.base.posX), old(unit.base.posY),
                                   if Classify(d) == Approach then old(world.Heading(unit.base, AGGRESSIVE_AI)).0 else 0.0,
                                   if Classify(d) == Approach then old(world.Heading(unit.base, AGGRESSIVE_AI)).1 else 0.0,
                                   delta, unit.speed)
      ensures var d := old(world.DistanceToPlayer(unit.base));
              unit.facing == Left <==> (if Classify(d) == Approach then old(world.Heading(unit.base, AGGRESSIVE_AI)).0 else 0.0) < 0.0
      ensures var d := old(world.DistanceToPlayer(unit.base));
              var fired := Classify(d) == Strike && old(unit.cooldownTime) == unit.cooldown;
              unit.cooldownTime == Timers.Tick(if fired then 0 else old(unit.cooldownTime), unit.cooldown, delta)
              && (fired ==> 0 <= dealt <= unit.damage) && (!fired ==> dealt == 0)
      ensures var d := old(world.DistanceToPlayer(unit.base));
              Classify(d) != Strike ==>
                world.player.unit.hp == old(world.player.unit.hp)
                && world.player.unit.base.posX == old(world.player.unit.base.posX)
                && world.player.unit.base.posY == old(world.player.unit.base.posY)
      ensures var d := old(world.DistanceToPlayer(unit.base));
              Classify(d) == Strike ==>
                world.player.Struck(old(world.player.unit.hp), old(world.player.unit.base.posX),
                                    old(world.player.unit.base.posY), dealt)
      ensures unit.damage >= 0 && 1 <= old(world.player.unit.hp) <= world.player.unit.maxHP ==>
                1 <= world.player.unit.hp <= world.player.unit.maxHP
    {
      var mx, my;
      mx, my, dealt := ChasePlayer(world);
      unit.Update(world, mx, my, delta);
    }
  }

  // ---------------------------------------------------------------------------
  // Camera

  class Camera {
    var unitFollow: Player?
    var xPos: int
    var yPos: int
    var xTile: int
    var yTile: int
    /** Half the screen width, and half the height of the map view above the panel:
        the screen constants the camera centres with. */
    const halfWidth: int
    const halfHeight: int

    /** A new camera follows `candidate` when it is the player. */
    constructor (candidate: object?, halfWidth: int, halfHeight: int)
      ensures candidate is Player ==> unitFollow == candidate as Player
      ensures !(candidate is Player) ==> unitFollow == null
      ensures xPos == 0 && yPos == 0 && xTile == 0 && yTile == 0
      ensures this.halfWidth == halfWidth && this.halfHeight == halfHeight
    {
      unitFollow := null;
      xPos, yPos, xTile, yTile := 0, 0, 0, 0;
      this.halfWidth := halfWidth;
      this.halfHeight := halfHeight;
      new;
      FollowUnit(candidate);
    }

    /** The tile fields match the pixel position. */
    ghost predicate Consistent()
      reads this`xPos, this`yPos, this`xTile, this`yTile
    {
      xTile == Tiles.TileOf(xPos) && yTile == Tiles.TileOf(yPos)
    }

    /** Where the camera's first tile column starts on screen. */
    function OffsetXPos(): (r: int)
      reads this`xPos, this`xTile
      ensures xTile == Tiles.TileOf(xPos) && xPos >= 0 ==> -Tiles.TILE_DIMENSION < r <= 0
      ensures xTile == Tiles.TileOf(xPos) && xPos < 0 ==> 0 <= r < Tiles.TILE_DIMENSION
    {
      Tiles.OffsetWithinOneTile(xPos);
      xTile * Tiles.TILE_DIMENSION - xPos
    }

    /** Where the camera's first tile row starts on screen. */
    function OffsetYPos(): (r: int)
      reads this`yPos, this`yTile
      ensures yTile == Tiles.TileOf(yPos) && yPos >= 0 ==> -Tiles.TILE_DIMENSION < r <= 0
      ensures yTile == Tiles.TileOf(yPos) && yPos < 0 ==> 0 <= r < Tiles.TILE_DIMENSION
    {
      Tiles.OffsetWithinOneTile(yPos);
      yTile * Tiles.TILE_DIMENSION - yPos
    }

    /** The screen column of map coordinate `x`: the camera's own position maps to 0. */
    function RelativeX(x: real): (r: int)
      reads this`xPos
      ensures x >= 0.0 ==> (xPos + r) as real <= x < (xPos + r + 1) as real
      ensures x == xPos as real ==> r == 0
    {
      JavaNum.Trunc(x) - xPos
    }

    /** The screen row of map coordinate `y`: the camera's own position maps to 0. */
    function RelativeY(y: real): (r: int)
      reads this`yPos
      ensures y >= 0.0 ==> (yPos + r) as real <= y < (yPos + r + 1) as real
      ensures y == yPos as real ==> r == 0
    {
      JavaNum.Trunc(y) - yPos
    }

    /** Re-centres on the followed player and recomputes the tiles. */
    method Update()
      requires unitFollow != null
      modifies this`xPos, this`yPos, this`xTile, this`yTile
      ensures xPos == JavaNum.Trunc(unitFollow.unit.base.posX - halfWidth as real)
      ensures yPos == JavaNum.Trunc(unitFollow.unit.base.posY - halfHeight as real)
      ensures Consistent()
    {
      xPos := JavaNum.Trunc(unitFollow.unit.base.posX - halfWidth as real);
      yPos := JavaNum.Trunc(unitFollow.unit.base.posY - halfHeight as real);
      xTile := Tiles.TileOf(xPos);
      yTile := Tiles.TileOf(yPos);
    }

    /** Only a player can be followed; anything else leaves the camera as it was. */
    method FollowUnit(candidate: object?)
      modifies this`unitFollow
      ensures candidate is Player ==> unitFollow == candidate as Player
      ensures !(candidate is Player) ==> unitFollow == old(unitFollow)
    {
      if candidate is Player {
        unitFollow := candidate as Player;
      }
    }
  }

  // ---------------------------------------------------------------------------
  // World

  class World {
    var entities: seq<EntityRef>
    const player: Player
    const camera: Camera
    /** World.getDistance between two points. */
    const distance: (real, real, real, real) -> real
    /** Whether the map tile at a tile column and row is marked as blocking. */
    const tileBlocked: (int, int) -> bool

    /** World(): World.init, then a camera on the player. */
    constructor (rows: seq<Spawn.Row>, names: seq<string>, itemPositions: seq<(int, int)>,
                 lines: seq<Spawn.Placement>, distance: (real, real, real, real) -> real,
                 tileBlocked: (int, int) -> bool, halfWidth: int, halfHeight: int)
      requires |rows| == Spawn.NUM_CHARACTERS && |names| == Spawn.NUM_CHARACTERS
      requires |itemPositions| == Spawn.NUM_ITEMS
      requires Spawn.Dispatch(rows, names, lines, Spawn.Plan(Spawn.None, [])).player.Some?
      ensures Valid()
      ensures var plan := Spawn.Dispatch(rows, names, lines, Spawn.Plan(Spawn.None, []));
              Loaded(entities, itemPositions, plan.units) && Started(player, plan.player.value)
      ensures rows[0].damage >= 0 ==> Armed()
      ensures rows[0].hp >= 1 ==> PlayerAlive()
      ensures camera.halfWidth == halfWidth && camera.halfHeight == halfHeight
      ensures this.distance == distance && this.tileBlocked == tileBlocked
    {
      var p, es := Init(rows, names, itemPositions, lines);
      var c := new Camera(p, halfWidth, halfHeight);
      entities := es;
      player := p;
      camera := c;
      this.distance := distance;
      this.tileBlocked := tileBlocked;
    }

    /** World.init on already parsed tables: the player is made from the player line
        (it is kept apart from the list), the four items with identifiers 0 to 3 are
        listed first, then the units the other position lines dispatch to, in order;
        then every stored index is refreshed. */
    static method Init(rows: seq<Spawn.Row>, names: seq<string>, itemPositions: seq<(int, int)>,
                       lines: seq<Spawn.Placement>) returns (p: Player, es: seq<EntityRef>)
      requires |rows| == Spawn.NUM_CHARACTERS && |names| == Spawn.NUM_CHARACTERS
      requires |itemPositions| == Spawn.NUM_ITEMS
      requires Spawn.Dispatch(rows, names, lines, Spawn.Plan(Spawn.None, [])).player.Some?
      ensures var plan := Spawn.Dispatch(rows, names, lines, Spawn.Plan(Spawn.None, []));
              Loaded(es, itemPositions, plan.units) && Started(p, plan.player.value)
      ensures Layout(es, p.inventory, p) && Indexed(es) && InventorySound(p.inventory) && PassivesSound(es)
      ensures rows[0].damage >= 0 ==>
                p.unit.damage >= 0 && forall r :: r in es && r.AggressiveRef? ==> r.aggressive.unit.damage >= 0
      ensures rows[0].hp >= 1 ==> 1 <= p.unit.hp <= p.unit.maxHP
    {
      var plan := Spawn.Dispatch(rows, names, lines, Spawn.Plan(Spawn.None, []));
      Spawn.DispatchUsesRowZero(rows, names, lines, Spawn.Plan(Spawn.None, []));
      var start := plan.player.value;
      p := new Player(start.x as real, start.y as real, start.hp, start.damage, start.cooldown);
      es := Settle(itemPositions, plan.units, p, rows[0].damage);
    }

    /** The list part of World.init: the items and units are made, then every stored
        index is refreshed to its position. */
    static method Settle(itemPositions: seq<(int, int)>, units: seq<Spawn.Recruit>, p: Player, d: int)
      returns (es: seq<EntityRef>)
      requires |itemPositions| == Spawn.NUM_ITEMS && p.inventory == []
      requires forall u :: u in units ==> u.damage == d
      ensures Loaded(es, itemPositions, units) && Layout(es, [], p) && PassivesSound(es) && Indexed(es)
      ensures d >= 0 ==> forall r :: r in es && r.AggressiveRef? ==> r.aggressive.unit.damage >= 0
    {
      es := Populate(itemPositions, units, p);
      LoadedArmed(es, itemPositions, units, d);
      assert Distinct(BasesOf(es) + ItemBases([])) by {
        UnsharedEntries(es, [], p);
      }
      RefreshEntityIndex(es, []);
    }

    /** Whether a map point lies on a blocking tile: the tile looked up is the one the
        camera's tile arithmetic gives for the point's pixel. */
    function IsBlocked(x: real, y: real): (b: bool)
      ensures b == tileBlocked(Tiles.TileOf(JavaNum.Trunc(x)), Tiles.TileOf(JavaNum.Trunc(y)))
    {
      Tiles.TileOfPixel(x);
      Tiles.TileOfPixel(y);
      tileBlocked(JavaNum.Trunc(x / Tiles.TILE_DIMENSION as real), JavaNum.Trunc(y / Tiles.TILE_DIMENSION as real))
    }

    /** Where Unit.move puts a unit: each axis moves only if the tentative point on
        that axis, with the other coordinate unchanged, is free. */
    function Destination(x: real, y: real, dirX: real, dirY: real, delta: int, speed: real): (p: (real, real))
      ensures p.0 == x || p.0 == NewLocation(x, dirX, delta, speed)
      ensures p.1 == y || p.1 == NewLocation(y, dirY, delta, speed)
      ensures p.0 != x ==> !IsBlocked(p.0, y)
      ensures p.1 != y ==> !IsBlocked(x, p.1)
      ensures !IsBlocked(NewLocation(x, dirX, delta, speed), y) ==> p.0 == NewLocation(x, dirX, delta, speed)
      ensures !IsBlocked(x, NewLocation(y, dirY, delta, speed)) ==> p.1 == NewLocation(y, dirY, delta, speed)
    {
      var tx := NewLocation(x, dirX, delta, speed);
      var ty := NewLocation(y, dirY, delta, speed);
      (if IsBlocked(tx, y) then NewLocation(x, 0.0, delta, speed) else tx,
       if IsBlocked(x, ty) then NewLocation(y, 0.0, delta, speed) else ty)
    }

    ghost function DistanceToPlayer(e: Entity): real
      reads e`posX, e`posY, player.unit.base`posX, player.unit.base`posY
    {
      distance(e.posX, e.posY, player.unit.base.posX, player.unit.base.posY)
    }

    /** The Monster.AI direction of a monster at `e` relative to the player. */
    ghost function Heading(e: Entity, aggressive: int): (real, real)
      reads e`posX, e`posY, player.unit.base`posX, player.unit.base`posY
    {
      AI(player.unit.base.posX, player.unit.base.posY, e.posX, e.posY, DistanceToPlayer(e), aggressive)
    }

    /** Where a monster at `e` ends up after running along its AI heading. */
    ghost function Flight(e: Entity, aggressive: int, delta: int, speed: real): (real, real)
      reads e`posX, e`posY, player.unit.base`posX, player.unit.base`posY
    {
      var h := Heading(e, aggressive);
      Destination(e.posX, e.posY, h.0, h.1, delta, speed)
    }

    ghost function IndexFrame(): set<Entity>
      reads this, player
    {
      BaseSet(entities) + ItemBaseSet(player.inventory)
    }

    /** The invariants of the world between frames. */
    ghost predicate Valid()
      reads this, player, BaseSet(entities)`index, ItemBaseSet(player.inventory)`index
      reads PassiveSet(entities)`wanderX, PassiveSet(entities)`wanderY, camera`unitFollow
    {
      Layout(entities, player.inventory, player)
      && Indexed(entities)
      && InventorySound(player.inventory)
      && PassivesSound(entities)
      && camera.unitFollow == player
    }

    /** No unit that can attack has negative damage (Random.nextInt would throw). */
    ghost predicate Armed()
      reads this, player.unit`damage, MonsterUnitSet(entities)`damage
    {
      player.unit.damage >= 0 && forall r :: r in entities && r.AggressiveRef? ==> r.aggressive.unit.damage >= 0
    }

    /** The camera is centred on the player: Camera.update has run since the player
        last moved. */
    ghost predicate Centred()
      reads player.unit.base`posX, player.unit.base`posY, camera`xPos, camera`yPos
    {
      camera.xPos == JavaNum.Trunc(player.unit.base.posX - camera.halfWidth as real)
      && camera.yPos == JavaNum.Trunc(player.unit.base.posY - camera.halfHeight as real)
    }

    ghost predicate PlayerAlive()
      reads player.unit`hp, player.unit`maxHP
    {
      1 <= player.unit.hp <= player.unit.maxHP
    }

    /** Gives every entity its list position as index, then every inventory item its
        inventory position. When no entity is in both lists (or twice in one), every
        stored index ends equal to the position. */
    static method RefreshEntityIndex(es: seq<EntityRef>, inv: seq<Item>)
      modifies BaseSet(es)`index, ItemBaseSet(inv)`index
      ensures Distinct(BasesOf(es) + ItemBases(inv)) ==> Indexed(es) && InventoryIndexed(inv)
    {
      ghost var all := BasesOf(es) + ItemBases(inv);
      ghost var d := Distinct(all);
      var i := 0;
      while i < |es|
        invariant 0 <= i <= |es|
        invariant d ==> forall k :: 0 <= k < i ==> all[k].index == k
      {
        assert es[i] in es;
        assert all[i] == es[i].Base();
        es[i].Base().index := i;
        i := i + 1;
      }
      var j := 0;
      while j < |inv|
        invariant 0 <= j <= |inv|
        invariant d ==> forall k :: 0 <= k < |es| ==> all[k].index == k
        invariant d ==> forall k :: |es| <= k < |es| + j ==> all[k].index == k - |es|
      {
        assert inv[j] in inv;
        assert all[|es| + j] == inv[j].base;
        inv[j].base.index := j;
        j := j + 1;
      }
      assert forall k :: 0 <= k < |es| ==> all[k] == es[k].Base();
      if d {
        forall k | 0 <= k < |inv|
          ensures inv[k].base.index == k
        {
          assert all[|es| + k] == inv[k].base;
        }
      }
    }

    /** Whether an entity lies closer than `pixels` to (x, y). */
    predicate Within(e: Entity, pixels: int, x: real, y: real)
      reads e`posX, e`posY
    {
      distance(e.posX, e.posY, x, y) < pixels as real
    }

    /** What getNearByEntity collects from `es`: the entries within `pixels` of
        (x, y), in list order. */
    ghost function NearBy(es: seq<EntityRef>, pixels: int, x: real, y: real): seq<EntityRef>
      reads BaseSet(es)`posX, BaseSet(es)`posY
    {
      if es == [] then []
      else
        var last := es[|es| - 1];
        NearBy(es[..|es| - 1], pixels, x, y) + (if Within(last.Base(), pixels, x, y) then [last] else [])
    }

    /** What NearBy collects from a part of `big` is part of `big`, and so are the
        objects it reaches. */
    lemma NearByWithin(es: seq<EntityRef>, pixels: int, x: real, y: real, big: seq<EntityRef>)
      requires forall r :: r in es ==> r in big
      ensures forall r :: r in NearBy(es, pixels, x, y) ==> r in big
      ensures MonsterUnitSet(NearBy(es, pixels, x, y)) <= UnitSet(big)
      ensures PassiveSet(NearBy(es, pixels, x, y)) <= PassiveSet(big)
      ensures VillagerSet(NearBy(es, pixels, x, y)) <= VillagerSet(big)
    {
      NearByMembers(es, pixels, x, y);
      assert forall r :: r in NearBy(es, pixels, x, y) ==> r in es;
      SetsShrink(NearBy(es, pixels, x, y), big);
    }

    /** NearBy depends on nothing but the positions of the entries. */
    twostate lemma {:induction false} NearByKept(es: seq<EntityRef>)
      requires forall r :: r in es ==> r.Base().posX == old(r.Base().posX) && r.Base().posY == old(r.Base().posY)
      ensures forall pixels, x, y :: NearBy(es, pixels, x, y) == old(NearBy(es, pixels, x, y))
    {
      if es != [] {
        NearByKept(es[..|es| - 1]);
      }
    }

    /** An entry is collected exactly when it is in the list and within range. */
    lemma {:induction false} NearByMembers(es: seq<EntityRef>, pixels: int, x: real, y: real)
      ensures forall r :: r in NearBy(es, pixels, x, y) <==> r in es && Within(r.Base(), pixels, x, y)
    {
      if es != [] {
        var front := es[..|es| - 1];
        assert es == front + [es[|es| - 1]];
        NearByMembers(front, pixels, x, y);
      }
    }

    /** The search keeps list order: searching two lists one after the other gives the
        two answers one after the other. */
    lemma {:induction false} NearByAppend(a: seq<EntityRef>, b: seq<EntityRef>, pixels: int, x: real, y: real)
      ensures NearBy(a + b, pixels, x, y) == NearBy(a, pixels, x, y) + NearBy(b, pixels, x, y)
      decreases |b|
    {
      if b == [] {
        assert a + b == a;
      } else {
        var front := b[..|b| - 1];
        assert (a + b)[..|a + b| - 1] == a + front;
        NearByAppend(a, front, pixels, x, y);
      }
    }

    /** A list without repetitions gives an answer without repetitions. */
    lemma {:induction false} NearByDistinct(es: seq<EntityRef>, pixels: int, x: real, y: real)
      requires Distinct(es)
      ensures Distinct(NearBy(es, pixels, x, y))
    {
      if es != [] {
        var front := es[..|es| - 1];
        var last := es[|es| - 1];
        assert es == front + [last];
        assert Distinct(front);
        NearByDistinct(front, pixels, x, y);
        NearByMembers(front, pixels, x, y);
        assert last !in front;
      }
    }

    /** World.update: the player's frame, the camera, an attack when the attack key
        reads exactly 1, a talk when the talk key reads exactly 1, then every unit of
        the entity list takes its own frame standing still. The invariants hold
        throughout, a living player stays alive, entities only ever leave the list,
        and without an attack no unit leaves it. */
    method Update(dirX: real, dirY: real, attack: real, talk: real, delta: int)
      requires Valid() && Armed()
      modifies this`entities, player, player.unit, player.unit.base, camera
      modifies BaseSet(entities), UnitSet(entities), VillagerSet(entities), PassiveSet(entities)
      modifies ItemBaseSet(player.inventory)
      ensures Valid() && Armed() && camera.Consistent()
      ensures old(PlayerAlive()) ==> PlayerAlive()
      ensures forall r :: r in entities ==> r in old(entities)
      ensures attack != 1.0 ==> forall r :: r in old(entities) && r.IsUnit() ==> r in entities
    {
      ghost var es0 := entities;
      Front(dirX, dirY, attack, talk, delta);
      SetsShrink(entities, es0);
      UpdateUnits(delta);
    }

    /** World.update up to the closing loop: the player's frame and the camera, then
        the keys. */
    method Front(dirX: real, dirY: real, attack: real, talk: real, delta: int)
      requires Valid() && Armed()
      modifies this`entities, player, player.unit, player.unit.base, camera
      modifies BaseSet(entities), UnitSet(entities), VillagerSet(entities), PassiveSet(entities)
      modifies ItemBaseSet(player.inventory)
      ensures Valid() && Armed() && camera.Consistent()
      ensures Centred()
      ensures (player.unit.base.posX, player.unit.base.posY)
              == Destination(old(player.unit.base.posX), old(player.unit.base.posY), dirX, dirY, delta, player.unit.speed)
      ensures player.unit.facing == Left <==> dirX < 0.0
      ensures old(PlayerAlive()) ==> PlayerAlive()
      ensures forall r :: r in entities ==> r in old(entities)
      ensures attack != 1.0 ==> forall r :: r in old(entities) && r.IsUnit() ==> r in entities
    {
      ghost var es0 := entities;
      Move(dirX, dirY, delta);
      SetsShrink(entities, es0);
      Act(attack, talk);
    }

    /** The player's frame, then the camera following the player. */
    method Move(dirX: real, dirY: real, delta: int)
      requires Valid() && Armed()
      modifies player.unit.base`posX, player.unit.base`posY, player.unit`facing, player.unit`cooldownTime
      modifies player`inventory, player.unit`maxHP, player.unit`hp, player.unit`damage, player.unit`cooldown
      modifies this`entities, IndexFrame()`index, camera`xPos, camera`yPos, camera`xTile, camera`yTile
      ensures Valid() && Armed() && camera.Consistent() && Centred()
      ensures (player.unit.base.posX, player.unit.base.posY)
              == Destination(old(player.unit.base.posX), old(player.unit.base.posY), dirX, dirY, delta, player.unit.speed)
      ensures player.unit.facing == Left <==> dirX < 0.0
      ensures player.unit.cooldownTime == Timers.Tick(old(player.unit.cooldownTime), old(player.unit.cooldown), delta)
      ensures var x, y := player.unit.base.posX, player.unit.base.posY;
              var near := old(NearBy(entities, INTERACT_RANGE, x, y));
              player.inventory == old(player.inventory) + ItemsOf(near)
              && player.unit.Stats() == IE.BuffAll(old(player.unit.Stats()), IdsOf(ItemsOf(near)))
              && entities == Without(old(entities), ItemEntries(near))
      ensures old(PlayerAlive()) ==> PlayerAlive()
      ensures forall r :: r in entities ==> r in old(entities)
      ensures forall r :: r in old(entities) && r.IsUnit() ==> r in entities
      ensures IndexFrame() <= old(IndexFrame())
    {
      PlayerFrame(dirX, dirY, delta);
      FollowPlayer();
    }

    /** The first part of World.update: the player's frame. Only items leave the
        list. */
    method PlayerFrame(dirX: real, dirY: real, delta: int)
      requires Valid() && Armed()
      modifies player.unit.base`posX, player.unit.base`posY, player.unit`facing, player.unit`cooldownTime
      modifies player`inventory, player.unit`maxHP, player.unit`hp, player.unit`damage, player.unit`cooldown
      modifies this`entities, IndexFrame()`index
      ensures Valid() && Armed()
      ensures (player.unit.base.posX, player.unit.base.posY)
              == Destination(old(player.unit.base.posX), old(player.unit.base.posY), dirX, dirY, delta, player.unit.speed)
      ensures player.unit.facing == Left <==> dirX < 0.0
      ensures player.unit.cooldownTime == Timers.Tick(old(player.unit.cooldownTime), old(player.unit.cooldown), delta)
      ensures var x, y := player.unit.base.posX, player.unit.base.posY;
              var near := old(NearBy(entities, INTERACT_RANGE, x, y));
              player.inventory == old(player.inventory) + ItemsOf(near)
              && player.unit.Stats() == IE.BuffAll(old(player.unit.Stats()), IdsOf(ItemsOf(near)))
              && entities == Without(old(entities), ItemEntries(near))
      ensures old(PlayerAlive()) ==> PlayerAlive()
      ensures forall r :: r in entities ==> r in old(entities)
      ensures forall r :: r in old(entities) && r.IsUnit() ==> r in entities
      ensures IndexFrame() <= old(IndexFrame())
    {
      ghost var es0 := entities;
      player.Update(this, dirX, dirY, delta);
      ghost var x, y := player.unit.base.posX, player.unit.base.posY;
      WithoutMembers(es0, ItemEntries(old(NearBy(entities, INTERACT_RANGE, x, y))));
    }

    /** The camera catches up with the player; nothing else changes. */
    method FollowPlayer()
      requires Valid() && Armed()
      modifies camera`xPos, camera`yPos, camera`xTile, camera`yTile
      ensures Valid() && Armed() && camera.Consistent()
      ensures Centred()
    {
      camera.Update();
    }

    /** The key part of World.update: an attack when the attack key reads exactly 1,
        then a talk when the talk key reads exactly 1. Only an attack takes entries out
        of the list. */
    method Act(attack: real, talk: real)
      requires Valid() && Armed()
      modifies this`entities, player.unit`hp, player.unit`cooldownTime, player`inventory
      modifies BaseSet(entities)`index, ItemBaseSet(player.inventory)`index
      modifies UnitSet(entities)`hp, PassiveSet(entities)`safeTime
      modifies VillagerSet(entities)`talkTimer, VillagerSet(entities)`dialogue
      ensures Valid() && Armed()
      ensures old(camera.Consistent()) ==> camera.Consistent()
      ensures unchanged(player.unit.base`posX, player.unit.base`posY, player.unit`facing, camera`xPos, camera`yPos)
      ensures old(PlayerAlive()) ==> PlayerAlive()
      ensures forall r :: r in entities ==> r in old(entities)
      ensures attack != 1.0 ==> entities == old(entities)
    {
      if attack == 1.0 {
        StrikeNearBy();
      }
      if talk == 1.0 {
        TalkNearBy();
      }
    }

    /** The player attacks what is in range; only entries of the list leave it. */
    method StrikeNearBy()
      requires Valid() && Armed()
      modifies this`entities, player.unit`cooldownTime
      modifies BaseSet(entities)`index, ItemBaseSet(player.inventory)`index
      modifies UnitSet(entities)`hp, PassiveSet(entities)`safeTime
      ensures Valid() && Armed()
      ensures old(PlayerAlive()) ==> PlayerAlive()
      ensures forall r :: r in entities ==> r in old(entities)
    {
      ghost var es0 := entities;
      UnsharedEntries(entities, player.inventory, player);
      var x, y := player.unit.base.posX, player.unit.base.posY;
      ghost var near := NearBy(entities, INTERACT_RANGE, x, y);
      NearByWithin(entities, INTERACT_RANGE, x, y, es0);
      player.AttackUnit(this);
      WithoutMembers(es0, Fallen(near));
    }

    /** The player talks to the villagers in range; the list stays as it is. */
    method TalkNearBy()
      requires Valid() && Armed()
      modifies player.unit`hp, player`inventory
      modifies VillagerSet(entities)`talkTimer, VillagerSet(entities)`dialogue
      ensures Valid() && Armed() && entities == old(entities)
      ensures old(PlayerAlive()) ==> PlayerAlive()
    {
      UnsharedEntries(entities, player.inventory, player);
      var x, y := player.unit.base.posX, player.unit.base.posY;
      NearByWithin(entities, INTERACT_RANGE, x, y, entities);
      player.InteractVillager(this);
    }

    /** The closing loop of World.update: every unit of the list, in order, takes a
        frame with no direction of its own; items are skipped. */
    method UpdateUnits(delta: int)
      requires Valid() && Armed()
      modifies player.unit`hp, player.unit.base`posX, player.unit.base`posY
      modifies BaseSet(entities)`posX, BaseSet(entities)`posY, UnitSet(entities)`facing, UnitSet(entities)`cooldownTime
      modifies VillagerSet(entities)`talkTimer, VillagerSet(entities)`dialogue
      modifies PassiveSet(entities)`safeTime, PassiveSet(entities)`wanderTime
      modifies PassiveSet(entities)`wanderX, PassiveSet(entities)`wanderY
      ensures Valid() && Armed()
      ensures old(PlayerAlive()) ==> PlayerAlive()
    {
      var i := 0;
      while i < |entities|
        invariant 0 <= i <= |entities|
        invariant Valid() && Armed()
        invariant old(PlayerAlive()) ==> PlayerAlive()
      {
        UpdateEntry(entities[i], delta);
        i := i + 1;
      }
    }

    /** One entry of the closing loop of World.update. */
    method UpdateEntry(r: EntityRef, delta: int)
      requires Valid() && Armed() && r in entities
      modifies player.unit`hp, player.unit.base`posX, player.unit.base`posY
      modifies r.Base()`posX, r.Base()`posY
      modifies (if r.IsUnit() then {r.UnitOf()} else {})`facing, (if r.IsUnit() then {r.UnitOf()} else {})`cooldownTime
      modifies (if r.VillagerRef? then {r.villager} else {})`talkTimer, (if r.VillagerRef? then {r.villager} else {})`dialogue
      modifies (if r.PassiveRef? then {r.passive} else {})`safeTime, (if r.PassiveRef? then {r.passive} else {})`wanderTime
      modifies (if r.PassiveRef? then {r.passive} else {})`wanderX, (if r.PassiveRef? then {r.passive} else {})`wanderY
      ensures Valid() && Armed()
      ensures old(PlayerAlive()) ==> PlayerAlive()
    {
      match r
      case ItemRef(_) =>
      case VillagerRef(v) =>
        UpdateVillager(v, delta);
      case PassiveRef(p) =>
        UpdatePassive(p, delta);
      case AggressiveRef(a) =>
        UpdateAggressive(a, delta);
    }

    /** A villager of the list takes its frame. */
    method UpdateVillager(v: Villager, delta: int)
      requires Valid() && VillagerRef(v) in entities
      modifies v.unit.base`posX, v.unit.base`posY, v.unit`facing, v.unit`cooldownTime, v`talkTimer, v`dialogue
      ensures Valid()
    {
      v.Update(this, 0.0, 0.0, delta);
    }

    /** A passive monster of the list takes its frame. */
    method UpdatePassive(p: PassiveMonster, delta: int)
      requires Valid() && PassiveRef(p) in entities
      modifies p.unit.base`posX, p.unit.base`posY, p.unit`facing, p.unit`cooldownTime
      modifies p`safeTime, p`wanderTime, p`wanderX, p`wanderY
      ensures Valid()
    {
      UnsharedEntries(entities, player.inventory, player);
      p.Update(this, 0.0, 0.0, delta);
    }

    /** An aggressive monster of the list takes its frame; with no negative damage
        about, a living player stays alive. */
    method UpdateAggressive(a: AggressiveMonster, delta: int)
      requires Valid() && Armed() && AggressiveRef(a) in entities
      modifies a.unit.base`posX, a.unit.base`posY, a.unit`facing, a.unit`cooldownTime
      modifies player.unit`hp, player.unit.base`posX, player.unit.base`posY
      ensures Valid() && Armed()
      ensures old(PlayerAlive()) ==> PlayerAlive()
    {
      UnsharedEntries(entities, player.inventory, player);
      ghost var dealt := a.Update(this, 0.0, 0.0, delta);
    }

    /** In a valid world, the entries in reach of a point are distinct entries of
        the list. */
    lemma NearByOfValid(es: seq<EntityRef>, inv: seq<Item>, p: Player, pixels: int, x: real, y: real)
      requires Unshared(es, inv, p)
      ensures Distinct(es) && BasesApart(es)
      ensures Distinct(NearBy(es, pixels, x, y))
      ensures forall k :: 0 <= k < |NearBy(es, pixels, x, y)| ==> NearBy(es, pixels, x, y)[k] in es
    {
      NearByEntries(es, pixels, x, y);
      UnsharedEntries(es, inv, p);
      NearByDistinct(es, pixels, x, y);
    }

    /** Every position of NearBy holds an entry of the list. */
    lemma NearByEntries(es: seq<EntityRef>, pixels: int, x: real, y: real)
      ensures forall k :: 0 <= k < |NearBy(es, pixels, x, y)| ==> NearBy(es, pixels, x, y)[k] in es
    {
      NearByMembers(es, pixels, x, y);
      forall k | 0 <= k < |NearBy(es, pixels, x, y)|
        ensures NearBy(es, pixels, x, y)[k] in es
      {
        assert NearBy(es, pixels, x, y)[k] in NearBy(es, pixels, x, y);
      }
    }

    /** World.getNearByEntity: one pass over the list, keeping the entries within range;
        the list itself is left alone. */
    method GetNearByEntity(pixels: int, x: real, y: real) returns (near: seq<EntityRef>)
      ensures near == NearBy(entities, pixels, x, y)
    {
      near := [];
      var i := 0;
      while i < |entities|
        invariant 0 <= i <= |entities|
        invariant near == NearBy(entities[..i], pixels, x, y)
      {
        var e := entities[i].Base();
        assert entities[..i + 1][..i] == entities[..i];
        if distance(e.posX, e.posY, x, y) < pixels as real {
          near := near + [entities[i]];
        }
        i := i + 1;
      }
      assert entities[..i] == entities;
    }

    /** World.remove: deletes the entry at the entity's stored index and re-indexes. */
    method Remove(target: Entity)
      requires 0 <= target.index < |entities|
      modifies this`entities, IndexFrame()`index
      ensures entities == RemoveAt(old(entities), old(target.index))
      ensures Distinct(BasesOf(entities) + ItemBases(player.inventory)) ==>
                Indexed(entities) && InventoryIndexed(player.inventory)
    {
      RemoveAtMembers(entities, target.index);
      entities := RemoveAt(entities, target.index);
      RefreshEntityIndex(entities, player.inventory);
    }

    /** After a removal from a valid world, the world is valid again. */
    lemma RemovedValid(es: seq<EntityRef>, k: int)
      requires 0 <= k < |es| && entities == RemoveAt(es, k)
      requires Layout(es, player.inventory, player) && PassivesSound(es) && camera.unitFollow == player
      requires Distinct(BasesOf(entities) + ItemBases(player.inventory)) ==>
                 Indexed(entities) && InventoryIndexed(player.inventory)
      ensures Valid()
      ensures forall r :: r in entities <==> r in es && r != es[k]
    {
      LayoutAfterRemove(es, player.inventory, player, k);
      UnsharedEntries(entities, player.inventory, player);
      PassivesSoundShrink(entities, es);
    }

    /** After an item moves from the list to the end of the inventory of a valid
        world, the world is valid again. */
    lemma CollectedValid(es: seq<EntityRef>, inv: seq<Item>, k: int)
      requires 0 <= k < |es| && es[k].ItemRef?
      requires entities == RemoveAt(es, k) && player.inventory == inv + [es[k].item]
      requires Layout(es, inv, player) && PassivesSound(es) && camera.unitFollow == player
      requires Distinct(BasesOf(entities) + ItemBases(player.inventory)) ==>
                 Indexed(entities) && InventoryIndexed(player.inventory)
      ensures Valid()
      ensures forall r :: r in entities <==> r in es && r != es[k]
    {
      LayoutAfterCollect(es, inv, player, k);
      UnsharedEntries(entities, player.inventory, player);
      PassivesSoundShrink(entities, es);
    }

    /** After the elixir leaves a valid world's inventory, the world is valid again. */
    lemma DroppedValid(inv: seq<Item>, k: int)
      requires 0 <= k < |inv| && IsElixir(inv[k]) && player.inventory == RemoveAt(inv, k)
      requires Layout(entities, inv, player) && InventorySound(inv)
      requires Indexed(entities) && PassivesSound(entities) && camera.unitFollow == player
      ensures Valid()
    {
      LayoutAfterDrop(entities, inv, player, k);
      assert CountWhere(player.inventory, IsElixir) == 0;
    }
  }
}
