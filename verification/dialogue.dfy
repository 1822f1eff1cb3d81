/** The villagers' names, their lines and the decision tables of Villager.talk. */
module Dialogue {

  /** How long (in milliseconds) a line stays on screen. */
  const TALK_TIME := 4000

  const ELVIRA := "Elvira"
  const ELVIRA_HP_FULL := "Return to me if you ever need healing."
  const ELVIRA_HP_HEALED := "You're looking much healthier now."

  const PRINCE := "Prince Aldric"
  const PRINCE_HAS_ELIXIR := "The elixir! My father is cured! Thankyou!"
  const PRINCE_NO_ELIXIR := "Please seek out the Elixir of Life to cure the king."

  const GARTH := "Garth"
  const GARTH_AMULET := "Find the Amulet of Vitality, across the river to the west."
  const GARTH_SWORD := "Find the Sword of Strength - cross the river and back, on the east side"
  const GARTH_TOME := "Find the Tome of Agility, in the Land of Shadows."
  const GARTH_ALL := "You have found all the treasure I know of."

  /** The three villagers who have something to say go by different names. */
  lemma NamesDiffer()
    ensures ELVIRA != GARTH && ELVIRA != PRINCE && GARTH != PRINCE
  {
    assert ELVIRA[0] == 'E' && GARTH[0] == 'G' && PRINCE[0] == 'P';
  }

  /** Elvira's line: she only heals a player who is not at full health. */
  function ElviraLine(hp: int, maxHP: int): string
  {
    if hp == maxHP then ELVIRA_HP_FULL else ELVIRA_HP_HEALED
  }

  /** Garth's line names the first treasure the player lacks, in the order amulet,
      sword, tome. */
  function GarthLine(hasAmulet: bool, hasSword: bool, hasTome: bool): string
  {
    if !hasAmulet then GARTH_AMULET
    else if !hasSword then GARTH_SWORD
    else if !hasTome then GARTH_TOME
    else GARTH_ALL
  }

  /** The prince thanks the player who hands over the elixir, and also once the elixir
      is gone from the world (it was handed over before). */
  function PrinceLine(holdsElixir: bool, elixirInWorld: bool): string
  {
    if holdsElixir then PRINCE_HAS_ELIXIR
    else if !elixirInWorld then PRINCE_HAS_ELIXIR
    else PRINCE_NO_ELIXIR
  }
}
