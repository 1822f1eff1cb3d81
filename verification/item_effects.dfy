/** What picking up an item does to the player's stats (Item.itemCollected): the
    amulet raises maximum and current HP, the sword raises damage, the tome shortens
    the attack cooldown, the elixir (and any other identifier) changes nothing. */
module ItemEffects {

  const AMULET_ID := 0
  const SWORD_ID := 1
  const TOME_ID := 2
  const ELIXIR_ID := 3

  const AMULET_BUFF := 80
  const SWORD_BUFF := 30
  const TOME_BUFF := 300

  /** The four player stats an item can change. */
  datatype Stats = Stats(maxHP: int, hp: int, damage: int, cooldown: int)

  /** The stats after collecting the item with identifier `id`. No item weakens the
      player, and the gap between maximum and current HP is kept, so a player at full
      health stays at full health. */
  function Buff(s: Stats, id: int): (r: Stats)
    ensures r.maxHP >= s.maxHP && r.hp >= s.hp && r.damage >= s.damage && r.cooldown <= s.cooldown
    ensures r.maxHP - r.hp == s.maxHP - s.hp
    ensures id !in {AMULET_ID, SWORD_ID, TOME_ID} ==> r == s
  {
    if id == AMULET_ID then s.(maxHP := s.maxHP + AMULET_BUFF, hp := s.hp + AMULET_BUFF)
    else if id == SWORD_ID then s.(damage := s.damage + SWORD_BUFF)
    else if id == TOME_ID then s.(cooldown := s.cooldown - TOME_BUFF)
    else s
  }

  /** The stats after collecting the items `ids`, in that order. */
  function BuffAll(s: Stats, ids: seq<int>): Stats
  {
    if ids == [] then s else Buff(BuffAll(s, ids[..|ids| - 1]), ids[|ids| - 1])
  }

  /** Each amulet, sword or tome collected adds its buff once, whatever else was
      collected before or after it. */
  lemma {:induction false} BuffAllCounts(s: Stats, ids: seq<int>)
    ensures BuffAll(s, ids) == Stats(
      s.maxHP + AMULET_BUFF * multiset(ids)[AMULET_ID],
      s.hp + AMULET_BUFF * multiset(ids)[AMULET_ID],
      s.damage + SWORD_BUFF * multiset(ids)[SWORD_ID],
      s.cooldown - TOME_BUFF * multiset(ids)[TOME_ID])
  {
    if ids != [] {
      var front := ids[..|ids| - 1];
      assert ids == front + [ids[|ids| - 1]];
      BuffAllCounts(s, front);
    }
  }

  /** The order in which items are collected does not matter. */
  lemma BuffAllOrderFree(s: Stats, a: seq<int>, b: seq<int>)
    requires multiset(a) == multiset(b)
    ensures BuffAll(s, a) == BuffAll(s, b)
  {
    BuffAllCounts(s, a);
    BuffAllCounts(s, b);
  }

  /** Collecting items never lowers damage, and a living player at most at full
      health stays so. */
  lemma BuffAllKeepsAlive(s: Stats, ids: seq<int>)
    ensures BuffAll(s, ids).damage >= s.damage
    ensures 1 <= s.hp <= s.maxHP ==> 1 <= BuffAll(s, ids).hp <= BuffAll(s, ids).maxHP
  {
    BuffAllCounts(s, ids);
  }
}
