/** The game server's rooms told from their history: what every blow deals, who is on guard, and how long a special cools. */
module GameHistory {
  import opened Text
  import opened Game

  // ---------- Guard and cooldown, by the log alone ----------

  /** The player of a seat has defended since the last blow against it. */
  ghost predicate OnGuard(log: seq<Hit>, id: nat, seat: nat) {
    exists j :: 0 <= j < |log| && log[j].room == id && log[j].seat == seat && log[j].kind == Defend && Unhurt(log, id, seat, j)
  }

  /** No blow from the other seat behind entry `j`. */
  predicate Unhurt(log: seq<Hit>, id: nat, seat: nat, j: nat) {
    forall k :: j < k < |log| && log[k].room == id && log[k].seat != seat ==> log[k].kind == Defend
  }

  /** How many actions from a seat there have been since its last special. */
  function SinceSpecial(log: seq<Hit>, id: nat, seat: nat): Option<nat> {
    if log == [] then None
    else
      var rest, h := SinceSpecial(log[..|log| - 1], id, seat), log[|log| - 1];
      if h.room != id || h.seat != seat then rest
      else if h.kind == Special then Some(0)
      else if rest.None? then None else Some(rest.value + 1)
  }

  /** Three of its own actions, less those since. */
  predicate Cools(cooldown: nat, since: Option<nat>) {
    match since case None => cooldown == 0 case Some(n) => cooldown == if n < 3 then 3 - n else 0
  }

  /** The points a blow takes: four or seven times its strength, which counts as five unless it is one to ten; half of that
      from a player on guard; a defence takes none. */
  predicate Deals(kind: Kind, power: int, guarded: bool, damage: nat) {
    var strength := if 1 <= power <= 10 then power else 5;
    match kind
    case Defend => damage == 0
    case Attack => if guarded then damage == 2 * strength else damage == 4 * strength
    case Special => if guarded then 2 * damage <= 7 * strength < 2 * damage + 2 else damage == 7 * strength
  }

  lemma OnGuardMore(log: seq<Hit>, h: Hit, id: nat, seat: nat)
    ensures OnGuard(log + [h], id, seat) <==>
            if h.room == id && h.seat == seat && h.kind == Defend then true
            else if h.room == id && h.seat != seat && h.kind != Defend then false
            else OnGuard(log, id, seat)
  {
    var more := log + [h];
    if OnGuard(log, id, seat) && !(h.room == id && h.seat != seat && h.kind != Defend) {
      var j :| 0 <= j < |log| && log[j].room == id && log[j].seat == seat && log[j].kind == Defend && Unhurt(log, id, seat, j);
      assert more[j] == log[j] && Unhurt(more, id, seat, j);
    }
    if h.room == id && h.seat == seat && h.kind == Defend { assert more[|log|] == h && Unhurt(more, id, seat, |log|); }
    if j :| 0 <= j < |more| && more[j].room == id && more[j].seat == seat && more[j].kind == Defend && Unhurt(more, id, seat, j) {
      assert more[|log|] == h;
      if j < |log| {
        forall k | j < k < |log| && log[k].room == id && log[k].seat != seat ensures log[k].kind == Defend { assert more[k] == log[k]; }
        assert log[j] == more[j] && Unhurt(log, id, seat, j);
      }
    }
  }

  lemma SinceMore(log: seq<Hit>, h: Hit, id: nat, seat: nat)
    ensures SinceSpecial(log + [h], id, seat) ==
            if h.room != id || h.seat != seat then SinceSpecial(log, id, seat)
            else if h.kind == Special then Some(0)
            else if SinceSpecial(log, id, seat).None? then None else Some(SinceSpecial(log, id, seat).value + 1)
  {
    assert (log + [h])[..|log|] == log;
  }

  // ---------- The players' states ----------

  ghost predicate Tells(log: seq<Hit>, id: nat, seat: nat, p: Player) {
    (p.defending <==> OnGuard(log, id, seat)) && Cools(p.cooldown, SinceSpecial(log, id, seat))
  }

  /** A room that exists tells what the log does; of one that does not the log knows nothing. */
  ghost predicate RoomTells(w: World, id: nat) {
    if id in w.rooms then forall s :: 0 <= s < |w.rooms[id].states| ==> Tells(w.log, id, s, w.rooms[id].states[s])
    else true
  }

  /** A log without actions in a room has none from its seats. */
  lemma {:induction false} SilentLog(log: seq<Hit>, id: nat, seat: nat)
    requires Actions(log, id) == 0
    ensures !OnGuard(log, id, seat) && SinceSpecial(log, id, seat) == None
  {
    if log != [] {
      var rest, h := log[..|log| - 1], log[|log| - 1];
      assert log == rest + [h];
      SilentLog(rest, id, seat);
      OnGuardMore(rest, h, id, seat);
    }
  }

  lemma NewcomerTells(log: seq<Hit>, id: nat, seat: nat)
    requires Actions(log, id) == 0
    ensures Tells(log, id, seat, NEWCOMER)
  {
    SilentLog(log, id, seat);
  }

  /** The two players of an exchange. */
  lemma ExchangeTells(log: seq<Hit>, id: nat, turn: nat, m: Move, h: Hit, atk: Player, def: Player)
    requires turn < 2 && Tells(log, id, turn, atk) && Tells(log, id, 1 - turn, def)
    requires h.room == id && h.seat == turn && h.kind == m.kind
    ensures Tells(log + [h], id, turn, Attacker(m, atk)) && Tells(log + [h], id, 1 - turn, Defender(m, def))
  {
    OnGuardMore(log, h, id, turn);
    OnGuardMore(log, h, id, 1 - turn);
    SinceMore(log, h, id, turn);
    SinceMore(log, h, id, 1 - turn);
  }

  lemma ElsewhereTells(log: seq<Hit>, h: Hit, id: nat, seat: nat, p: Player)
    requires Tells(log, id, seat, p) && h.room != id
    ensures Tells(log + [h], id, seat, p)
  {
    OnGuardMore(log, h, id, seat);
    SinceMore(log, h, id, seat);
  }

  /** What the blow deals is what the log says it should. */
  lemma DamageDeals(m: Move, def: Player)
    ensures Deals(m.kind, m.power, def.defending, Damage(m, def))
  {
  }

  lemma ApplyTells(w: World, m: Move, v: World, id: nat)
    requires Inv(w) && Accepts(w, m) && v == Apply(w, m) && RoomTells(w, id) && RoomTells(w, m.room)
    ensures RoomTells(v, id)
  {
    var r := w.rooms[m.room];
    var h := Hit(m.room, r.turn, m.name, m.kind, m.power, Damage(m, r.states[1 - r.turn]));
    assert RoomAt(w, m.room);
    BookedIs(w, m.room, r, Played(r, m), h, v);
    if id == m.room {
      ExchangeTells(w.log, id, r.turn, m, h, r.states[r.turn], r.states[1 - r.turn]);
    } else if id in w.rooms {
      forall s | 0 <= s < |w.rooms[id].states| ensures Tells(v.log, id, s, w.rooms[id].states[s]) {
        ElsewhereTells(w.log, h, id, s, w.rooms[id].states[s]);
      }
    }
  }

  lemma JoinTells(w: World, id: nat, name: string, k: nat)
    requires Inv(w) && RoomTells(w, k)
    ensures RoomTells(Join(w, id, name).0, k)
  {
    assert RoomAt(w, id);
    if Join(w, id, name).0 != w && k == id { NewcomerTells(w.log, id, |w.rooms[id].states|); }
  }

  lemma StepTells(w: World, step: Step, id: nat)
    requires Inv(w) && forall k: nat :: RoomTells(w, k)
    ensures RoomTells(Next(w, step), id)
  {
    match step
    case Open =>
      assert RoomTells(w, id);
    case Enter(room, name) => JoinTells(w, room, name, id);
    case Act(m) =>
      if Accepts(w, m) {
        assert RoomTells(w, id) && RoomTells(w, m.room);
        ApplyTells(w, m, Apply(w, m), id);
      }
  }

  lemma {:induction false} RunTells(steps: seq<Step>)
    ensures forall id: nat :: RoomTells(Run(steps), id)
  {
    if steps != [] {
      var before := steps[..|steps| - 1];
      RunTells(before);
      RunKeeps(before);
      forall id: nat ensures RoomTells(Run(steps), id) { StepTells(Run(before), steps[|steps| - 1], id); }
    }
  }

  /** In every room of every run a player is on guard exactly if it has defended since the last blow against it, and its
      cooldown is three less its own actions since its last special. */
  lemma EveryState(steps: seq<Step>, id: nat, seat: nat)
    requires id in Run(steps).rooms && seat < |Run(steps).rooms[id].states|
    ensures var w, p := Run(steps), Run(steps).rooms[id].states[seat];
            (p.defending <==> OnGuard(w.log, id, seat)) && Cools(p.cooldown, SinceSpecial(w.log, id, seat))
  {
    RunTells(steps);
    assert RoomTells(Run(steps), id);
  }

  // ---------- Every blow ----------

  /** An entry of the log, by what stands before it. */
  ghost predicate EntryOk(past: seq<Hit>, h: Hit) {
    h.seat < 2 && h.seat == Actions(past, h.room) % 2 && Deals(h.kind, h.power, OnGuard(past, h.room, 1 - h.seat), h.damage)
  }

  /** An action is taken, and entered in the log, exactly if the room is being played and it is that player's turn. */
  lemma ActEnters(w: World, m: Move)
    requires Inv(w) && forall k: nat :: RoomTells(w, k)
    ensures var v := Next(w, Act(m));
            if m.room in w.rooms && w.rooms[m.room].phase == Playing && |w.rooms[m.room].names| == 2
               && w.rooms[m.room].names[Actions(w.log, m.room) % 2] == m.name
            then |v.log| == |w.log| + 1 && v.log[..|w.log|] == w.log && EntryOk(w.log, v.log[|w.log|])
                 && var h := v.log[|w.log|]; h.room == m.room && h.name == m.name && h.kind == m.kind && h.power == m.power
            else v == w
  {
    assert RoomAt(w, m.room) && RoomTells(w, m.room);
    if Accepts(w, m) {
      var r := w.rooms[m.room];
      var h := Hit(m.room, r.turn, m.name, m.kind, m.power, Damage(m, r.states[1 - r.turn]));
      BookedIs(w, m.room, r, Played(r, m), h, Next(w, Act(m)));
      DamageDeals(m, r.states[1 - r.turn]);
      assert Tells(w.log, m.room, 1 - r.turn, r.states[1 - r.turn]);
    }
  }

  /** Every entry of the log of every run: turns alternate from the host, and the damage is what kind, strength and the
      other player's guard make it. */
  lemma {:induction false} EveryBlow(steps: seq<Step>, i: nat)
    requires i < |Run(steps).log|
    ensures EntryOk(Run(steps).log[..i], Run(steps).log[i])
  {
    var n := |steps| - 1;
    var w, v := Run(steps[..n]), Run(steps);
    RunKeeps(steps[..n]);
    RunTells(steps[..n]);
    if steps[n].Act? { ActEnters(w, steps[n].move); }
    if i < |w.log| {
      EveryBlow(steps[..n], i);
      assert v.log[..|w.log|][..i] == v.log[..i];
    }
  }

  // ---------- Rooms and seats ----------

  /** Rooms are numbered from one in the order in which they are opened, and none is ever lost. */
  lemma {:induction false} RoomsNumbered(steps: seq<Step>)
    ensures Run(steps).nextRoom == Opened(steps) && forall id: nat :: id in Run(steps).rooms <==> 1 <= id <= Opened(steps)
  {
    if steps != [] { RoomsNumbered(steps[..|steps| - 1]); }
  }

  function Opened(steps: seq<Step>): nat {
    if steps == [] then 0 else Opened(steps[..|steps| - 1]) + if steps[|steps| - 1].Open? then 1 else 0
  }

  /** A player is let in exactly if the room exists and the player is in it or it has a free seat; then the player is in it,
      behind who was; the game begins with the second. No other room changes. */
  lemma JoinOutcome(w: World, id: nat, name: string)
    requires Inv(w)
    ensures var (v, joined) := Join(w, id, name);
            && (joined <==> id in w.rooms && (name in w.rooms[id].names || |w.rooms[id].names| < 2))
            && v.rooms.Keys == w.rooms.Keys && (forall k :: k in w.rooms && k != id ==> v.rooms[k] == w.rooms[k])
            && (joined ==>
                  && v.rooms[id].names == w.rooms[id].names + (if name in w.rooms[id].names then [] else [name])
                  && (v.rooms[id].phase == Waiting <==> |v.rooms[id].names| < 2))
            && (!joined ==> v == w)
  {
    assert RoomAt(w, id);
  }

  /** What the caller is told is what then stands in the registry. */
  lemma ToldIsTrue(w: World, m: Move)
    requires Inv(w) && Accepts(w, m)
    ensures var su, v, seat := Told(w, m), Next(w, Act(m)), Actions(w.log, m.room) % 2;
            && m.room in v.rooms && |v.rooms[m.room].states| == |v.rooms[m.room].names| == 2 && v.log != []
            && su.attacker == v.rooms[m.room].names[seat] == m.name && su.defender == v.rooms[m.room].names[1 - seat]
            && su.attackerHp == v.rooms[m.room].states[seat].hp && su.defenderHp == v.rooms[m.room].states[1 - seat].hp
            && su.damage == v.log[|v.log| - 1].damage
            && (su.gameOver <==> v.rooms[m.room].phase == Finished)
  {
    assert RoomAt(w, m.room);
  }
}
