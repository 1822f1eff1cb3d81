/** The type dispatch of World.init, started from the already parsed tables: the
    attribute table (one row per character), the character names and the lines of
    the unit position table. */
module Spawn {

  datatype Option<T> = None | Some(value: T)

  const PLAYER_ID := 0
  const NPC_ID := 1
  const PASSIVE_ID := 2
  const AGGRESSIVE_ID := 3

  const NUM_CHARACTERS := 9
  const NUM_ITEMS := 4

  /** The integer columns of one attribute row: name index, unit type, HP, damage and
      cooldown. */
  datatype Row = Row(id: int, kind: int, hp: int, damage: int, cooldown: int)

  /** One line of the unit position table: the attribute row it refers to and the
      starting pixel. */
  datatype Placement = Placement(row: int, x: int, y: int)

  /** The three kinds of unit that join the entity list. */
  datatype Kind = NPC | Passive | Aggressive

  /** A unit to create: its kind, start, stats and name. */
  datatype Recruit = Recruit(kind: Kind, x: int, y: int, hp: int, damage: int, cooldown: int, name: string)

  /** The player's start and stats. */
  datatype Start = Start(x: int, y: int, hp: int, damage: int, cooldown: int)

  /** What the loading loop has produced so far. */
  datatype Plan = Plan(player: Option<Start>, units: seq<Recruit>)

  /** A line the loop cannot get through: its row number, or the name index stored in
      that row, is outside the tables, so an array access throws and the rest of the
      file is skipped. */
  predicate Unreadable(rows: seq<Row>, names: seq<string>, p: Placement)
  {
    !(0 <= p.row < |rows|)
    || (rows[p.row].kind in {PLAYER_ID, NPC_ID, PASSIVE_ID, AGGRESSIVE_ID} && !(0 <= rows[p.row].id < |names|))
  }

  /** Runs the loading loop over `lines` on top of `plan`. A player line replaces the
      player; a villager, passive or aggressive line appends a unit; an unknown type
      is skipped; an unreadable line stops the loop. Every unit, and the player, takes
      HP, damage and cooldown from row 0, whatever row its line names. Units are only
      ever appended, in line order. */
  function Dispatch(rows: seq<Row>, names: seq<string>, lines: seq<Placement>, plan: Plan): (r: Plan)
    requires |rows| == NUM_CHARACTERS
    ensures plan.units <= r.units
    ensures |r.units| <= |plan.units| + |lines|
    decreases |lines|
  {
    if lines == [] then plan
    else
      var p := lines[0];
      if Unreadable(rows, names, p) then plan
      else
        var row := rows[p.row];
        var stats := rows[0];
        if row.kind == PLAYER_ID then
          Dispatch(rows, names, lines[1..],
                   plan.(player := Some(Start(p.x, p.y, stats.hp, stats.damage, stats.cooldown))))
        else if row.kind in {NPC_ID, PASSIVE_ID, AGGRESSIVE_ID} then
          var kind := if row.kind == NPC_ID then NPC else if row.kind == PASSIVE_ID then Passive else Aggressive;
          var unit := Recruit(kind, p.x, p.y, stats.hp, stats.damage, stats.cooldown, names[row.id]);
          Dispatch(rows, names, lines[1..], plan.(units := plan.units + [unit]))
        else
          Dispatch(rows, names, lines[1..], plan)
  }

  /** Whether a recruit carries row 0's stats. */
  predicate RowZeroStats(rows: seq<Row>, u: Recruit)
    requires |rows| > 0
  {
    u.hp == rows[0].hp && u.damage == rows[0].damage && u.cooldown == rows[0].cooldown
  }

  /** Every unit and the player end up with the HP, damage and cooldown of attribute
      row 0, not those of the row their line names. */
  lemma {:induction false} DispatchUsesRowZero(rows: seq<Row>, names: seq<string>, lines: seq<Placement>, plan: Plan)
    requires |rows| == NUM_CHARACTERS
    requires forall u :: u in plan.units ==> RowZeroStats(rows, u)
    requires plan.player.Some? ==> plan.player.value.hp == rows[0].hp && plan.player.value.damage == rows[0].damage
                                   && plan.player.value.cooldown == rows[0].cooldown
    ensures var r := Dispatch(rows, names, lines, plan);
            (forall u :: u in r.units ==> RowZeroStats(rows, u))
            && (r.player.Some? ==> r.player.value.hp == rows[0].hp && r.player.value.damage == rows[0].damage
                                   && r.player.value.cooldown == rows[0].cooldown)
    decreases |lines|
  {
    if lines != [] && !Unreadable(rows, names, lines[0]) {
      var p := lines[0];
      var row := rows[p.row];
      var stats := rows[0];
      if row.kind == PLAYER_ID {
        DispatchUsesRowZero(rows, names, lines[1..],
                            plan.(player := Some(Start(p.x, p.y, stats.hp, stats.damage, stats.cooldown))));
      } else if row.kind in {NPC_ID, PASSIVE_ID, AGGRESSIVE_ID} {
        var kind := if row.kind == NPC_ID then NPC else if row.kind == PASSIVE_ID then Passive else Aggressive;
        var unit := Recruit(kind, p.x, p.y, stats.hp, stats.damage, stats.cooldown, names[row.id]);
        DispatchUsesRowZero(rows, names, lines[1..], plan.(units := plan.units + [unit]));
      } else {
        DispatchUsesRowZero(rows, names, lines[1..], plan);
      }
    }
  }

  /** An unreadable line ends the loading: the lines after it have no effect. */
  lemma {:induction false} DispatchStopsAtUnreadable(rows: seq<Row>, names: seq<string>, lines: seq<Placement>, j: nat, plan: Plan)
    requires |rows| == NUM_CHARACTERS
    requires j < |lines| && Unreadable(rows, names, lines[j])
    ensures Dispatch(rows, names, lines, plan) == Dispatch(rows, names, lines[..j], plan)
    decreases j
  {
    if j > 0 && !Unreadable(rows, names, lines[0]) {
      assert lines[..j][0] == lines[0];
      assert lines[..j][1..] == lines[1..][..j - 1];
      var p := lines[0];
      var row := rows[p.row];
      var stats := rows[0];
      if row.kind == PLAYER_ID {
        DispatchStopsAtUnreadable(rows, names, lines[1..], j - 1,
                                  plan.(player := Some(Start(p.x, p.y, stats.hp, stats.damage, stats.cooldown))));
      } else if row.kind in {NPC_ID, PASSIVE_ID, AGGRESSIVE_ID} {
        var kind := if row.kind == NPC_ID then NPC else if row.kind == PASSIVE_ID then Passive else Aggressive;
        var unit := Recruit(kind, p.x, p.y, stats.hp, stats.damage, stats.cooldown, names[row.id]);
        DispatchStopsAtUnreadable(rows, names, lines[1..], j - 1, plan.(units := plan.units + [unit]));
      } else {
        DispatchStopsAtUnreadable(rows, names, lines[1..], j - 1, plan);
      }
    }
  }

  /** Whether a line names a unit that joins the entity list. */
  predicate JoinsList(rows: seq<Row>, p: Placement)
  {
    0 <= p.row < |rows| && rows[p.row].kind in {NPC_ID, PASSIVE_ID, AGGRESSIVE_ID}
  }

  /** How many lines name a unit that joins the entity list. */
  function Joiners(rows: seq<Row>, lines: seq<Placement>): nat
  {
    if lines == [] then 0 else (if JoinsList(rows, lines[0]) then 1 else 0) + Joiners(rows, lines[1..])
  }

  /** When every line is readable, each villager, passive or aggressive line adds
      exactly one unit and player and unknown lines add none. */
  lemma {:induction false} DispatchCountsUnits(rows: seq<Row>, names: seq<string>, lines: seq<Placement>, plan: Plan)
    requires |rows| == NUM_CHARACTERS
    requires forall p :: p in lines ==> !Unreadable(rows, names, p)
    ensures |Dispatch(rows, names, lines, plan).units| == |plan.units| + Joiners(rows, lines)
    decreases |lines|
  {
    if lines != [] {
      var p := lines[0];
      assert p in lines;
      var row := rows[p.row];
      var stats := rows[0];
      assert forall q :: q in lines[1..] ==> q in lines;
      if row.kind == PLAYER_ID {
        DispatchCountsUnits(rows, names, lines[1..],
                            plan.(player := Some(Start(p.x, p.y, stats.hp, stats.damage, stats.cooldown))));
      } else if row.kind in {NPC_ID, PASSIVE_ID, AGGRESSIVE_ID} {
        var kind := if row.kind == NPC_ID then NPC else if row.kind == PASSIVE_ID then Passive else Aggressive;
        var unit := Recruit(kind, p.x, p.y, stats.hp, stats.damage, stats.cooldown, names[row.id]);
        DispatchCountsUnits(rows, names, lines[1..], plan.(units := plan.units + [unit]));
      } else {
        DispatchCountsUnits(rows, names, lines[1..], plan);
      }
    }
  }
}
