# Gameplay rules of a tile-based RPG, in Dafny

This project models the gameplay core of a small Java tile-based role-playing
game. A player walks a 72-pixel tile map, picks up four items (amulet, sword,
tome, elixir), fights passive and aggressive monsters, and talks to three
villagers (Elvira, Garth, Prince Aldric). The world keeps every item and unit
except the player in one entity list, and each entity stores its list index.

The model covers:

- **Unit rules:** HP, attack cooldown, facing, movement against blocked tiles,
  and the attack and hit rules.
- **The player:** the inventory (`findItem`, `removeItem`), the respawn on a
  fatal hit, and the three loops over nearby entities (items, monsters,
  villagers).
- **Item effects.**
- **Villagers:** the dialogue timer and the three decision tables of `talk`.
- **Monsters:** the passive monster's safe and wander timers, and the
  aggressive monster's three-way chase rule.
- **The camera's** integer pixel-to-tile arithmetic.
- **The world:** the type dispatch of `init` over already parsed tables, the
  entity list (`remove`, `refreshEntityIndex`, `getNearByEntity`), and the
  order of one `update` frame.

Java's class hierarchy becomes composition:

- An `Item` and a `Unit` each own an `Entity`, which holds the position and the
  stored index.
- Each kind of unit owns a `Unit`.
- The world's list holds tagged references (`EntityRef`) that play the role of
  `instanceof`.

Objects whose fields the game updates in place are classes, and their methods
state the new state. The pure rules sit in small modules: `Timers`, `Tiles`,
`JavaNum`, `ItemEffects`, `Dialogue`, `Spawn` and `Lists`.

`World.Valid` is the invariant the world keeps between frames:

- no entity sits twice in the list, the inventory and the player together;
- at most one elixir exists, in the list or in the inventory;
- every list entry's stored index is its position;
- every inventory index is non-negative, and the elixir sits at its stored
  index;
- every passive monster wanders along directions in {-1, 0, 1};
- the camera follows the player.

Every state-changing operation of the player, villagers, monsters and world is
proved to keep this invariant.

Two quirks of the code are modelled as written:

- Every unit and the player take HP, damage and cooldown from attribute row 0,
  whatever row their line names (`Spawn.DispatchUsesRowZero`).
- `removeItem` does not re-index the inventory, so the invariant keeps only what
  survives of the inventory indices (`InventorySound`).

## Model

| member | source | states |
|---|---|---|
| Game.Unit.TakeDamage | src/Unit.java:37-39 | HP drops by exactly the damage; no other field may change |
| Game.Unit.FlipUnit | src/Unit.java:214-220 | the unit faces left exactly when dirX < 0, otherwise right |
| Game.Unit.CheckCooldown | src/Unit.java:228-234 | below the cooldown the timer advances by delta; above it, it is clamped to the cooldown; at it, it stays |
| Game.Unit.Move | src/Unit.java:189-206 | each axis ends at the tentative point for that axis only if that point, with the other coordinate unchanged, is not blocked |
| Game.Unit.Update | src/Unit.java:170-174 | the frame is move, then turn, then cooldown tick: position, facing and timer are those three results |
| Game.Unit.Attack | src/Unit.java:294-304 | with the cooldown run out, the timer restarts at 0 and the hit is in [0, damage]; otherwise the hit is 0 and the timer is unchanged |
| Game.Unit.OnAttack | src/Unit.java:280-287 | HP drops by the damage; the unit leaves the list, at its stored index, exactly when its HP is below 1; the world stays valid |
| Game.World.IsBlocked | src/World.java:305-319 | a map point is blocked exactly when the tile holding its pixel, by the camera's tile arithmetic, is a blocking tile |
| Tiles.TileOfPixel | src/World.java:307-310 | dividing a coordinate by 72 and truncating picks the same tile as truncating to a pixel and then dividing with int division |
| Game.World.Destination | src/Unit.java:191-205 | the moved point: an axis that moves moves to a free tentative point, and a free tentative point is always taken |
| Game.Item.constructor | src/Item.java:40-45 | a new item is at its integer position with its identifier |
| Game.Item.ItemCollected | src/Item.java:62-80 | the item joins the end of the inventory and the four stats become the item's buff of the old ones; position and cooldown timer are untouched |
| ItemEffects.Buff | src/Item.java:66-79 | no item lowers maxHP, HP or damage or raises cooldown; the gap maxHP - HP is kept; any identifier but amulet, sword and tome changes nothing |
| ItemEffects.BuffAllCounts | src/Item.java:66-79 | after collecting a sequence of items, each amulet has added 80 to maxHP and HP, each sword 30 to damage, each tome -300 to cooldown |
| ItemEffects.BuffAllOrderFree | src/Item.java:62-80 | the order in which items are collected does not change the resulting stats |
| ItemEffects.BuffAllKeepsAlive | src/Item.java:66-79 | collecting never lowers damage, and keeps a living player at most at full health so |
| Game.Player.constructor | src/Player.java:48-62 | the player starts at its position with full HP, the cooldown already run out, player speed and an empty inventory |
| Game.Player.FindItem | src/Player.java:153-161 | the result is the stored index of the first item with the identifier, or -1; when stored indices are non-negative it is -1 exactly when no item has the identifier |
| Game.FirstWithFinds | src/Player.java:154-158 | the search for the first item with an identifier stops inside the inventory exactly when such an item is held |
| Game.Player.RemoveItem | src/Player.java:169-175 | when findItem gives -1 the inventory is unchanged, otherwise exactly the element at that index is removed; no stored index is touched |
| Game.LayoutAfterDrop | src/Player.java:173 | removing an inventory entry keeps everything unshared, and the elixir count drops by one exactly when that entry was the elixir |
| Game.Player.OnAttack | src/Player.java:134-144 | a survivable hit only lowers HP; a fatal one puts the player at (738, 549) with full HP; with maxHP >= 1 the player always ends with HP >= 1 |
| Game.Player.Update | src/Player.java:64-69 | the unit frame, then the pickup at the new position: inventory, stats and list are as checkForItem over the entries then in reach leaves them; damage never drops; a living player stays alive |
| Game.Player.CheckForItem | src/Player.java:77-88 | every item within reach joins the inventory in list order with its buff, and exactly those items leave the list; every other entry stays, in order |
| Game.Player.CheckNear | src/Player.java:80-87 | the same pickup once the entries in reach are known |
| Game.Player.PickUpAll | src/Player.java:82-87 | the loop over the entries in reach ends with the list minus their items, the inventory plus their items, and all their buffs applied |
| Game.Player.PickUp | src/Player.java:83-86 | one round of the loop: an item is collected and leaves the list, anything else is passed over |
| Game.Player.Collect | src/Player.java:84-85 | itemCollected then world.remove: the item is appended with its buff and the list loses exactly the entry at its stored index; the world stays valid |
| Game.World.CollectedValid | src/Player.java:84-85 | an item moving from the list to the end of the inventory leaves a valid world, and the list loses only that entry |
| Game.LayoutAfterCollect | src/Player.java:84-85 | moving an item from the list to the inventory keeps entities unshared and the elixir count at most one |
| Game.Player.AttackUnit | src/Player.java:96-105 | exactly the monsters within reach whose HP drops below 1 leave the list, in order; nothing else leaves; every passive monster in reach ends with its safe timer at 0, so it flees; the cooldown timer stays as it was or, when it had run out, restarts at 0; a negative damage is allowed unless the attack fires |
| Game.Player.AttackNear | src/Player.java:99-104 | the same attack, with the same timer rule and every passive monster in reach startled (safe timer 0), once the entries in reach are known |
| Game.Player.AttackAll | src/Player.java:100-104 | the loop over the entries in reach ends with the list minus the fallen monsters among them, every passive monster among them at safe timer 0, and the timer unchanged or restarted at 0 from a run-out cooldown |
| Game.Player.AttackStep | src/Player.java:101-103 | one round: a monster is hit with what attack deals and leaves the list exactly when it falls; the passive monsters already visited stay startled and a passive one hit now joins them; a non-monster changes nothing; the timer is unchanged or restarted at 0 from a run-out cooldown |
| Game.Player.AttackMonster | src/Player.java:102 | the monster loses exactly the hit, a passive one has its safe timer reset to 0, and it leaves the list exactly when it falls |
| Game.HitMonster | src/PassiveMonster.java:134-139 | Monster.onAttack on a list entry: a passive monster's safe timer drops to 0, HP drops by the hit, and the entry at its stored index leaves exactly when HP < 1 |
| Game.Player.InteractVillager | src/Player.java:113-122 | every villager within reach answered the talk: a villager whose timer had run out restarted it, any other kept it; the world stays valid and a living player alive |
| Game.Player.TalkAll | src/Player.java:117-121 | the loop over the entries in reach: each villager among them is talked to exactly once |
| Game.Villager.constructor | src/Villager.java:62-72 | a new villager is idle: talk timer at TALK_TIME, no line, speed 0 and its damage not kept |
| Game.Villager.DialogueTimer | src/Villager.java:86-97 | below TALK_TIME the timer advances by delta and the line is kept; otherwise the timer ends at TALK_TIME and the line is cleared |
| Game.Villager.Update | src/Villager.java:74-78 | the unit frame, then the dialogue timer |
| Game.Villager.Talk | src/Villager.java:107-163 | nothing happens unless the timer has run out; then it restarts at 0 and each named villager acts: Elvira heals, Garth names a missing item, the Prince takes the elixir; others only restart the timer |
| Game.Villager.Respond | src/Villager.java:113-159 | the three decision tables by name, with every state they leave unchanged |
| Dialogue.NamesDiffer | src/Villager.java:12-20 | the three villager names differ, so at most one table applies |
| Game.Villager.Heal | src/Villager.java:113-120 | HP ends at maxHP; the line is HP_FULL exactly when HP already was maxHP, else HEALED |
| Game.Villager.Guide | src/Villager.java:122-134 | Garth's line names the first of amulet, sword and tome the player does not hold, or says all are found |
| Game.Villager.ScanForElixir | src/Villager.java:137-147 | the flag is set exactly when an elixir item lies in the entity list |
| Game.Villager.TakeElixir | src/Villager.java:136-159 | a held elixir is removed (the first one) and he thanks; else he thanks when no elixir lies in the world and asks for it otherwise; the world stays valid |
| Game.Villager.HandOver | src/Villager.java:151-153 | removeItem of a held elixir removes the first elixir and leaves a valid world |
| Game.World.DroppedValid | src/Villager.java:153 | taking the elixir out of a valid world's inventory leaves a valid world |
| Game.AI | src/Monster.java:28-34 | the heading lies on the line through the monster and the target; for a positive distance it points toward the target with the aggressive sign and away from it with the passive sign; distance 0 gives no movement |
| Game.PassiveMonster.constructor | src/PassiveMonster.java:51-64 | a new monster feels safe and wanders on its first frame: safeTime = SAFE_TIME, wanderTime = WANDER_TIME |
| Game.PassiveMonster.Wander | src/PassiveMonster.java:110-132 | before WANDER_TIME the stored direction repeats and the timer advances by delta; after it, the timer restarts and each component is in {-1, 0, 1} and stored |
| Game.PassiveMonster.RunAway | src/PassiveMonster.java:93-100 | the flight direction lies on the line through the monster and the player and, at a positive distance, points away from the player |
| Game.PassiveMonster.Update | src/PassiveMonster.java:66-82 | an unsafe monster flees and its safe timer advances; a safe one (clamped to SAFE_TIME) wanders; directions stay in {-1, 0, 1}; it faces left exactly when the x-part of its flight heading, or its wander direction when safe, is negative |
| Game.PassiveMonster.OnAttack | src/PassiveMonster.java:134-139 | the safe timer drops to 0, then the unit takes the hit and leaves the list exactly when its HP drops below 1 |
| Game.Classify | src/AggressiveMonster.java:75-81 | strike exactly at distance <= 50, approach exactly in (50, 150], idle exactly beyond 150: the cases are exclusive and cover every distance |
| Game.AggressiveMonster.constructor | src/AggressiveMonster.java:37-49 | a new monster keeps its damage, starts with the cooldown run out, at its speed |
| Game.AggressiveMonster.ChasePlayer | src/AggressiveMonster.java:67-82 | idle: no movement, no attack; approach: the AI heading, which lies on the line to the player and points toward it, and no attack; strike: no movement and the player takes the hit attack deals; outside a strike nothing is dealt |
| Game.AggressiveMonster.Update | src/AggressiveMonster.java:51-57 | the given direction is ignored: the unit moves along the chase and faces left exactly when the approach heading points left (idle or striking, the x-direction is 0, so it does not face left); the cooldown timer is reset to 0 when a strike fires from a run-out cooldown and then ticks in the same frame; outside striking range the player is untouched; in range the player is Struck by the dealt amount, which lies in [0, damage] when the strike fires and is 0 otherwise; a living player stays alive |
| Tiles.TileOf | src/Camera.java:107-116 | the tile holding a pixel with truncating division: for p >= 0, t·72 <= p < (t+1)·72, and mirrored for p < 0 |
| Tiles.OffsetWithinOneTile | src/Camera.java:35-47 | for a camera position >= 0 the offset lies in (-72, 0]; for a negative one in [0, 72) |
| JavaNum.Quot | src/Camera.java:108 | Java's int division: the remainder takes the sign of the dividend |
| JavaNum.Trunc | src/Camera.java:158 | the (int) cast drops the fraction toward zero |
| Game.Camera.constructor | src/Camera.java:88-90 | a new camera follows its argument when that is a player and nothing otherwise, and starts at position and tile 0 |
| Game.Camera.OffsetXPos | src/Camera.java:35-37 | with consistent tiles, the offset lies in (-72, 0] for xPos >= 0 |
| Game.Camera.OffsetYPos | src/Camera.java:45-47 | with consistent tiles, the offset lies in (-72, 0] for yPos >= 0 |
| Game.Camera.RelativeX | src/Camera.java:157-159 | the screen column of x: for x >= 0, x lies in the pixel xPos + r, and xPos itself maps to 0 |
| Game.Camera.RelativeY | src/Camera.java:166-168 | the screen row of y: for y >= 0, y lies in the pixel yPos + r, and yPos itself maps to 0 |
| Game.Camera.Update | src/Camera.java:95-102 | the camera is centred on the followed player and afterwards xTile and yTile are the tiles of xPos and yPos |
| Game.Camera.FollowUnit | src/Camera.java:146-150 | the followed unit changes exactly when the argument is a player |
| Spawn.Dispatch | src/World.java:191-228 | the loading loop only ever appends units, at most one per line |
| Spawn.DispatchUsesRowZero | src/World.java:199-226 | every unit and the player carry the HP, damage and cooldown of attribute row 0 |
| Spawn.DispatchStopsAtUnreadable | src/World.java:185-232 | a line whose row or name index is out of the tables ends the loading: later lines have no effect |
| Spawn.DispatchCountsUnits | src/World.java:199-226 | with every line readable, each villager, passive or aggressive line adds exactly one unit and no other line adds any |
| Game.MakeUnit | src/World.java:205-225 | the switch on the unit type makes a villager, passive or aggressive monster with the recruit's position, stats and name |
| Game.SpawnItems | src/World.java:180-183 | the item loop lists item i, with identifier i, at the i-th item position, for i from 0 to 3 |
| Game.PlaceItem | src/World.java:181-182 | one round of the item loop appends the next numbered item at its position |
| Game.SpawnUnits | src/World.java:191-228 | the unit loop appends one new unit per recruit, in order, after the items |
| Game.EnlistUnit | src/World.java:199-226 | one round of the unit loop appends the unit made for the next recruit |
| Game.Populate | src/World.java:178-228 | the list holds the four items in identifier order, then the units in line order, all distinct and with one elixir |
| Game.LoadedArmed | src/World.java:220-225 | aggressive monsters keep row 0's damage, so with a non-negative row-0 damage none can make attack throw |
| Game.World.Init | src/World.java:166-235 | init's list and player: items first, units after, the player (not in the list) from the player line with row-0 stats; indices refreshed |
| Game.World.Settle | src/World.java:178-234 | the list part of init ends with every stored index equal to its position |
| Game.World.constructor | src/World.java:78-83 | the new world is valid, holds what init loaded, its camera follows the player; with row-0 HP >= 1 the player is alive |
| Game.World.RefreshEntityIndex | src/World.java:496-510 | with no entity in both lists, every list index and every inventory index ends equal to its position |
| Game.World.GetNearByEntity | src/World.java:552-562 | the result is the order-preserving filter of the list by distance < pixels; the list is not modified |
| Game.World.NearByMembers | src/World.java:555-559 | an entry is collected exactly when it is in the list and closer than the range |
| Game.World.NearByAppend | src/World.java:555-559 | the filter keeps list order: filtering two lists in turn gives the two answers in turn |
| Game.World.NearByDistinct | src/World.java:552-562 | a list without repetitions gives an answer without repetitions |
| Game.World.Remove | src/World.java:518-521 | exactly the entry at the stored index leaves, the rest keep their order, and with no shared entity every index is re-established |
| Lists.RemoveAt | src/World.java:519 | list.remove(int): one shorter, the elements before k kept, the later ones moved up by one |
| Game.World.RemovedValid | src/World.java:518-521 | a removal from a valid world leaves a valid world, and only the removed entry is gone |
| Game.LayoutAfterRemove | src/World.java:519 | a removal keeps entities unshared and at most one elixir |
| Lists.WithoutRemoveAt | src/Player.java:82-86 | removing by index the k-th kept entry equals adding it to the removed set: removal by index keeps the order of the rest |
| Game.World.Update | src/World.java:251-266 | the frame keeps the world valid and a living player alive; entries only leave the list, and without an attack no unit leaves it |
| Game.World.Front | src/World.java:252-259 | player frame, camera, attack and talk keep the world valid; the player ends at the moved point facing its direction, and the camera ends centred on it with consistent tiles |
| Game.World.Move | src/World.java:252-253 | the player's frame (moved point, facing, cooldown tick, the items in reach picked up with their buffs and taken out of the list) and then the camera centred on the player with consistent tiles |
| Game.World.PlayerFrame | src/World.java:252 | the player's frame: moved point, facing, cooldown tick, and the items in reach at the new position appended to the inventory with their buffs and taken out of the list; the world stays valid |
| Game.World.FollowPlayer | src/World.java:253 | the camera is centred on the player (its position is the truncated player position minus the half screen) and its tiles are consistent with its position |
| Game.World.Act | src/World.java:255-259 | attack when the key reads exactly 1, then talk when its key reads exactly 1; without an attack the list is unchanged |
| Game.World.StrikeNearBy | src/World.java:255-256 | the attack keeps the world valid and only takes entries out of the list |
| Game.World.TalkNearBy | src/World.java:258-259 | the talk keeps the world valid and leaves the list unchanged |
| Game.World.UpdateUnits | src/World.java:261-265 | every unit of the list takes a frame standing still; the world stays valid and a living player alive |
| Game.World.UpdateEntry | src/World.java:262-264 | an item is skipped, a unit takes its frame |
| Game.World.UpdateVillager | src/World.java:263 | a villager's frame keeps the world valid |
| Game.World.UpdatePassive | src/World.java:263 | a passive monster's frame keeps the world valid |
| Game.World.UpdateAggressive | src/World.java:263 | an aggressive monster's frame keeps the world valid and a living player alive |
| Timers.RunStaysAtLimit | src/Unit.java:228-234 | a timer at its limit stays there in every later frame |
| Timers.RunSettles | src/Villager.java:86-97 | with positive frame times every timer settles on its limit after finitely many frames and stays there |

## Left out

- Rendering is not modelled: `World.render`, the panel, health bars, dialogue boxes, `renderEntity` and sprites are drawing calls with no effect on the game state.
- File reading is not modelled: `readData` and the Scanner loop's parsing are replaced by already parsed tables.
  - A unit line is three integers (`Spawn.Placement`).
  - A line whose row or name index is out of the tables ends the loading, the way the caught exception does.
  - A line that does not parse as three integers is not modelled.
- `World.getDistance` (`Math.pow` and `Math.sqrt`) is the function parameter `distance` of the world.
- The TiledMap tile lookup of `isBlocked` is the parameter `tileBlocked`. Only the `(int)(x / 72)` tile computation is kept.
- Floating point is replaced by exact reals: positions, speeds (the model uses the exact decimal values 0.25 and 0.2, of which Java's `float`/`double` constants are binary approximations), and the `(int)` casts, which drop the fraction. Rounding, NaN, infinities and cast saturation are not modelled.
- Game.AI: at distance 0 Java divides 0 by 0 and gets NaN. The model gives no movement instead.
- Java's 32-bit integer wrap-around is not modelled. HP, timers plus delta, and the item buffs are unbounded integers.
- `Camera.getCenterViewX/Y` read screen constants of a class that is not part of this model. The half screen width and half map-view height are constructor parameters of the camera.
- `java.util.Random` is a nondeterministic choice within the documented range (`:|`).
- Game.Unit.Attack: requires damage >= 0 when the attack fires. `Random.nextInt(damage + 1)` throws for a negative damage, and the model rules that case out instead of modelling the exception.
- Game.World.Update: requires `Armed()` for the same reason. The player and every aggressive monster must have a non-negative damage at the start of the frame, even one whose cooldown has not run out, where Java would only throw once that unit's attack fires.
- Game.Player.RemoveItem: requires the stored index of the first matching item to be -1 or inside the inventory. `ArrayList.remove` throws otherwise. In a valid world this holds for the elixir, the only item the game removes.
- Game.Villager.Guide: requires non-negative stored inventory indices, which every valid world has. Otherwise findItem's -1 could not be told from a stored index.
- Game.World.constructor: requires a readable player line. Without one, `init` dereferences a null player in `refreshEntityIndex` and the game stops.
- Game.Player.AttackUnit: states which monsters leave the list, that every passive monster in reach is startled, and what happens to the cooldown timer. It does not state the HP each monster loses, which depends on the random draw and on the cooldown when that monster's turn comes. Game.Player.AttackMonster and Game.Unit.Attack state those per hit.
- Game.Player.InteractVillager: states the talk timers, validity and survival. What each villager says and does is stated by Game.Villager.Talk, not repeated here.
- Game.World.Update: states the invariants, survival and how the list shrinks. The new positions and timers of each unit are stated by the per-class Update methods, not repeated for the whole list.
- Game.World.Front: states the player's position, facing and the camera, but not the pickups and buffs, which Game.World.Move states, since the attack and the talk change HP, the cooldown timer and the inventory afterwards.
- Game.World.UpdateUnits: states only the invariants and survival, for the same reason.
- Game.World.UpdateEntry: states only the invariants and survival, for the same reason.
- Game.World.UpdateVillager: states only the invariants, for the same reason.
- Game.World.UpdatePassive: states only the invariants, for the same reason.
- Game.World.UpdateAggressive: states only the invariants and survival, for the same reason.
- Game.World.Act: states only the invariants and list effects; the per-entry effects are in AttackUnit and InteractVillager.
- Game.World.StrikeNearBy: states only the invariants and list effects; the per-entry effects are in AttackUnit.
- Game.World.TalkNearBy: states only the invariants and list effects; the per-entry effects are in InteractVillager.
- The player's name is dropped: the Player constructor does not store it.
- The map, sprites and font metrics are not part of the state.
