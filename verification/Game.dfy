/** The game server's registry: rooms, turns, hit points and the players' records. */
module Game {
  import opened Text

  const FULL_HP := 100

  datatype Kind = Attack | Defend | Special

  datatype Phase = Waiting | Playing | Finished

  datatype Player = Player(hp: int, defending: bool, cooldown: nat)

  const NEWCOMER := Player(FULL_HP, false, 0)

  /** The host is player 0, who moves first; the joiner is player 1. */
  datatype Room = Room(names: seq<string>, states: seq<Player>, turn: nat, phase: Phase, winner: string, events: nat)

  const EMPTY_ROOM := Room([], [], 0, Waiting, "", 0)

  datatype Record = Record(wins: nat, losses: nat, damage: nat)

  /** An accepted action, for history: which player of which room, under which name, what it was, and the damage it
      dealt. */
  datatype Hit = Hit(room: nat, seat: nat, name: string, kind: Kind, power: int, damage: nat)

  datatype World = World(rooms: map<nat, Room>, records: map<string, Record>, nextRoom: nat, finished: nat, log: seq<Hit>)

  const START := World(map[], map[], 0, 0, [])

  datatype Move = Move(name: string, room: nat, kind: Kind, power: int)

  function Power(m: Move): int { if m.power < 1 || m.power > 10 then 5 else m.power }

  /** The damage table. */
  function BaseDamage(m: Move): nat {
    match m.kind case Attack => Power(m) * 4 case Defend => 0 case Special => Power(m) * 7
  }

  function Create(w: World): World {
    w.(nextRoom := w.nextRoom + 1, rooms := w.rooms[w.nextRoom + 1 := EMPTY_ROOM])
  }

  function Seat(r: Room, name: string): Room {
    r.(names := r.names + [name], states := r.states + [NEWCOMER], phase := if |r.names| == 1 then Playing else r.phase)
  }

  /** Joining succeeds for a player already in the room, and for a free seat in a room that is not over. */
  function Join(w: World, id: nat, name: string): (World, bool) {
    if id !in w.rooms then (w, false)
    else
      var r := w.rooms[id];
      if name in r.names then (w, true)
      else if |r.names| >= 2 || r.phase == Finished then (w, false)
      else (w.(rooms := w.rooms[id := Seat(r, name)]), true)
  }

  predicate Accepts(w: World, m: Move) {
    && m.room in w.rooms
    && var r := w.rooms[m.room];
       r.phase == Playing && r.turn < |r.names| == |r.states| == 2 && r.names[r.turn] == m.name
  }

  function Damage(m: Move, def: Player): nat {
    if m.kind == Defend then 0 else if def.defending then BaseDamage(m) / 2 else BaseDamage(m)
  }

  function Max0(x: int): nat { if x > 0 then x else 0 }

  /** The attacker after the action: the cooldown runs down, and is only ever set, never consulted. */
  function Attacker(m: Move, atk: Player): Player {
    var cooled := if atk.cooldown > 0 then atk.cooldown - 1 else 0;
    match m.kind
    case Defend => atk.(defending := true, cooldown := cooled)
    case Attack => atk.(cooldown := cooled)
    case Special => atk.(cooldown := 3)
  }

  function Defender(m: Move, def: Player): Player {
    Player(Max0(def.hp - Damage(m, def)), if m.kind == Defend then def.defending else false, def.cooldown)
  }

  function Played(r: Room, m: Move): Room
    requires r.turn < 2 && |r.states| == |r.names| == 2
  {
    var a, d := r.turn, 1 - r.turn;
    var def := Defender(m, r.states[d]);
    var q := r.(states := r.states[a := Attacker(m, r.states[a])][d := def], events := r.events + 1);
    if def.hp <= 0 then q.(phase := Finished, winner := r.names[a]) else q.(turn := d)
  }

  function RecordOf(w: World, name: string): Record {
    if name in w.records then w.records[name] else Record(0, 0, 0)
  }

  function Scored(w: World, name: string, won: nat, lost: nat, damage: nat): World {
    var c := RecordOf(w, name);
    w.(records := w.records[name := Record(c.wins + won, c.losses + lost, c.damage + damage)])
  }

  /** The books after room `id` went from `r` to `q` by the hit `h`. */
  function Booked(w: World, id: nat, r: Room, q: Room, h: Hit): World
    requires r.turn < |r.names| == 2
  {
    var v := w.(rooms := w.rooms[id := q], log := w.log + [h]);
    var atk, def := r.names[r.turn], r.names[1 - r.turn];
    if q.phase == Finished then Scored(Scored(v, atk, 1, 0, h.damage), def, 0, 1, 0).(finished := w.finished + 1)
    else Scored(v, atk, 0, 0, h.damage)
  }

  /** `apply_action` for a move that is accepted. */
  function Apply(w: World, m: Move): World
    requires Accepts(w, m)
  {
    var r := w.rooms[m.room];
    Booked(w, m.room, r, Played(r, m), Hit(m.room, r.turn, m.name, m.kind, m.power, Damage(m, r.states[1 - r.turn])))
  }

  datatype Step = Open | Enter(id: nat, name: string) | Act(move: Move)

  function Next(w: World, step: Step): World {
    match step
    case Open => Create(w)
    case Enter(id, name) => Join(w, id, name).0
    case Act(m) => if Accepts(w, m) then Apply(w, m) else w
  }

  // ---------- What the log adds up to ----------

  /** Damage dealt from one seat of one room. */
  function Dealt(log: seq<Hit>, id: nat, seat: nat): nat {
    if log == [] then 0
    else
      var h := log[|log| - 1];
      Dealt(log[..|log| - 1], id, seat) + if h.room == id && h.seat == seat then h.damage else 0
  }

  /** Actions from one seat that were not a defence. */
  function Blows(log: seq<Hit>, id: nat, seat: nat): nat {
    if log == [] then 0
    else
      var h := log[|log| - 1];
      Blows(log[..|log| - 1], id, seat) + if h.room == id && h.seat == seat && h.kind != Defend then 1 else 0
  }

  /** Actions in one room. */
  function Actions(log: seq<Hit>, id: nat): nat {
    if log == [] then 0 else Actions(log[..|log| - 1], id) + if log[|log| - 1].room == id then 1 else 0
  }

  /** Damage dealt by one player in all rooms. */
  function DealtBy(log: seq<Hit>, name: string): nat {
    if log == [] then 0 else DealtBy(log[..|log| - 1], name) + if log[|log| - 1].name == name then log[|log| - 1].damage else 0
  }

  lemma LogAppend(log: seq<Hit>, h: Hit, id: nat, seat: nat, name: string)
    ensures Dealt(log + [h], id, seat) == Dealt(log, id, seat) + if h.room == id && h.seat == seat then h.damage else 0
    ensures Blows(log + [h], id, seat) == Blows(log, id, seat) + if h.room == id && h.seat == seat && h.kind != Defend then 1 else 0
    ensures Actions(log + [h], id) == Actions(log, id) + if h.room == id then 1 else 0
    ensures DealtBy(log + [h], name) == DealtBy(log, name) + if h.name == name then h.damage else 0
  {
    assert (log + [h])[..|log|] == log;
  }

  // ---------- Rooms ----------

  /** The totals of one room: damage and blows from each seat, and actions. */
  datatype Tally = Tally(dealt0: nat, dealt1: nat, blows0: nat, blows1: nat, actions: nat)

  const NOTHING := Tally(0, 0, 0, 0, 0)

  function TallyOf(log: seq<Hit>, id: nat): Tally {
    Tally(Dealt(log, id, 0), Dealt(log, id, 1), Blows(log, id, 0), Blows(log, id, 1), Actions(log, id))
  }

  predicate RoomOk(r: Room, t: Tally) {
    && |r.names| == |r.states| <= 2 && r.turn < 2
    && (|r.names| == 2 ==> r.names[0] != r.names[1])
    && r.events == t.actions
    && t.blows0 * 2 <= t.dealt0 && t.blows1 * 2 <= t.dealt1
    && match r.phase
       case Waiting => |r.names| < 2 && r.turn == 0 && t == NOTHING && (forall i :: 0 <= i < |r.states| ==> r.states[i] == NEWCOMER)
       case Playing =>
         && |r.names| == 2 && r.turn == r.events % 2
         && r.states[0].hp == FULL_HP - t.dealt1 > 0 && r.states[1].hp == FULL_HP - t.dealt0 > 0
       case Finished =>
         && |r.names| == 2 && r.winner == r.names[r.turn] && r.turn == (r.events + 1) % 2
         && r.states[0].hp == Max0(FULL_HP - t.dealt1) && r.states[1].hp == Max0(FULL_HP - t.dealt0)
         && r.states[1 - r.turn].hp == 0 && r.states[r.turn].hp > 0
         && t.blows0 + t.blows1 <= 99
  }

  function Added(t: Tally, h: Hit): Tally {
    var blow := if h.kind != Defend then 1 else 0;
    if h.seat == 0 then t.(dealt0 := t.dealt0 + h.damage, blows0 := t.blows0 + blow, actions := t.actions + 1)
    else t.(dealt1 := t.dealt1 + h.damage, blows1 := t.blows1 + blow, actions := t.actions + 1)
  }

  lemma TallyAppend(log: seq<Hit>, h: Hit, id: nat)
    requires h.seat < 2
    ensures TallyOf(log + [h], id) == if h.room == id then Added(TallyOf(log, id), h) else TallyOf(log, id)
  {
    LogAppend(log, h, id, 0, "");
    LogAppend(log, h, id, 1, "");
  }

  /** A blow that is not a defence takes at least two points. */
  lemma BlowHurts(m: Move, def: Player)
    requires m.kind != Defend
    ensures Damage(m, def) >= 2
  {
  }

  /** An accepted action keeps the room in order. */
  lemma PlayedOk(r: Room, t: Tally, m: Move, h: Hit)
    requires RoomOk(r, t) && r.phase == Playing && r.names[r.turn] == m.name
    requires h.seat == r.turn && h.kind == m.kind && h.damage == Damage(m, r.states[1 - r.turn])
    ensures RoomOk(Played(r, m), Added(t, h))
  {
    if m.kind != Defend { BlowHurts(m, r.states[1 - r.turn]); }
  }

  lemma SeatOk(r: Room, t: Tally, name: string)
    requires RoomOk(r, t) && r.phase == Waiting && name !in r.names
    ensures RoomOk(Seat(r, name), t)
  {
  }

  // ---------- The registry ----------

  predicate RoomAt(w: World, id: nat) {
    if id in w.rooms then 0 < id <= w.nextRoom && RoomOk(w.rooms[id], TallyOf(w.log, id)) else TallyOf(w.log, id) == NOTHING
  }

  function Where(rooms: map<nat, Room>, f: Room -> bool): set<nat> { set id | id in rooms && f(rooms[id]) }

  predicate IsOver(r: Room) { r.phase == Finished }

  function Loser(r: Room): string { if |r.names| == 2 && r.turn < 2 then r.names[1 - r.turn] else "" }

  /** The number of rooms that are over, and of those won and lost by a player. */
  function Over(rooms: map<nat, Room>): nat { |Where(rooms, r => IsOver(r))| }

  function Won(rooms: map<nat, Room>, name: string): nat { |Where(rooms, r => IsOver(r) && r.winner == name)| }

  function Lost(rooms: map<nat, Room>, name: string): nat { |Where(rooms, r => IsOver(r) && Loser(r) == name)| }

  /** A player's record counts the rooms won and lost, and the damage dealt. */
  predicate RecordAt(w: World, name: string) {
    RecordOf(w, name) == Record(Won(w.rooms, name), Lost(w.rooms, name), DealtBy(w.log, name))
  }

  ghost predicate Inv(w: World) {
    && (forall id: nat {:trigger RoomAt(w, id)} :: RoomAt(w, id))
    && (forall name {:trigger RecordAt(w, name)} :: RecordAt(w, name))
    && w.finished == Over(w.rooms)
  }

  lemma WhereSet(rooms: map<nat, Room>, id: nat, r: Room, f: Room -> bool)
    requires id in rooms ==> !f(rooms[id])
    ensures |Where(rooms[id := r], f)| == |Where(rooms, f)| + if f(r) then 1 else 0
  {
    var before, after := Where(rooms, f), Where(rooms[id := r], f);
    if f(r) {
      assert after == before + {id};
    } else {
      assert after == before;
    }
  }

  /** Changing a room that is not over: the counts change if it then is. */
  lemma Recount(rooms: map<nat, Room>, id: nat, r: Room, name: string)
    requires id in rooms ==> !IsOver(rooms[id])
    ensures Over(rooms[id := r]) == Over(rooms) + if IsOver(r) then 1 else 0
    ensures Won(rooms[id := r], name) == Won(rooms, name) + if IsOver(r) && r.winner == name then 1 else 0
    ensures Lost(rooms[id := r], name) == Lost(rooms, name) + if IsOver(r) && Loser(r) == name then 1 else 0
  {
    WhereSet(rooms, id, r, q => IsOver(q));
    WhereSet(rooms, id, r, q => IsOver(q) && q.winner == name);
    WhereSet(rooms, id, r, q => IsOver(q) && Loser(q) == name);
  }

  lemma CreateKeeps(w: World)
    requires Inv(w)
    ensures Inv(Create(w))
  {
    var v := Create(w);
    assert RoomAt(w, w.nextRoom + 1);
    forall id: nat ensures RoomAt(v, id) { assert RoomAt(w, id); }
    forall name ensures RecordAt(v, name) {
      assert RecordAt(w, name);
      Recount(w.rooms, w.nextRoom + 1, EMPTY_ROOM, name);
    }
    Recount(w.rooms, w.nextRoom + 1, EMPTY_ROOM, "");
  }

  lemma JoinKeeps(w: World, id: nat, name: string)
    requires Inv(w)
    ensures Inv(Join(w, id, name).0)
  {
    var v := Join(w, id, name).0;
    if v != w {
      var r := w.rooms[id];
      assert RoomAt(w, id);
      SeatOk(r, TallyOf(w.log, id), name);
      forall k: nat ensures RoomAt(v, k) { assert RoomAt(w, k); }
      forall p ensures RecordAt(v, p) {
        assert RecordAt(w, p);
        Recount(w.rooms, id, Seat(r, name), p);
      }
      Recount(w.rooms, id, Seat(r, name), "");
    }
  }

  /** The rooms after an accepted move. */
  lemma ApplyRooms(w: World, m: Move, v: World, id: nat)
    requires Inv(w) && Accepts(w, m) && v == Apply(w, m)
    ensures RoomAt(v, id)
  {
    var r := w.rooms[m.room];
    var h := Hit(m.room, r.turn, m.name, m.kind, m.power, Damage(m, r.states[1 - r.turn]));
    assert RoomAt(w, m.room) && RoomAt(w, id);
    PlayedOk(r, TallyOf(w.log, m.room), m, h);
    TallyAppend(w.log, h, id);
  }

  function Plus(a: Record, won: nat, lost: nat, damage: nat): Record { Record(a.wins + won, a.losses + lost, a.damage + damage) }

  lemma ScoredRecord(w: World, name: string, won: nat, lost: nat, damage: nat, p: string)
    ensures RecordOf(Scored(w, name, won, lost, damage), p) == if p == name then Plus(RecordOf(w, p), won, lost, damage) else RecordOf(w, p)
  {
  }

  /** What the books add to a player's record. */
  lemma BookedScores(w: World, id: nat, r: Room, q: Room, h: Hit, p: string, b: World)
    requires r.turn < |r.names| == 2 && r.names[0] != r.names[1] && h.name == r.names[r.turn] && b == Booked(w, id, r, q, h)
    ensures RecordOf(b, p) == Plus(RecordOf(w, p),
              if IsOver(q) && p == r.names[r.turn] then 1 else 0,
              if IsOver(q) && p == r.names[1 - r.turn] then 1 else 0,
              if p == h.name then h.damage else 0)
  {
    var v := w.(rooms := w.rooms[id := q], log := w.log + [h]);
    if IsOver(q) {
      ScoredRecord(v, r.names[r.turn], 1, 0, h.damage, p);
      ScoredRecord(Scored(v, r.names[r.turn], 1, 0, h.damage), r.names[1 - r.turn], 0, 1, 0, p);
    } else {
      ScoredRecord(v, r.names[r.turn], 0, 0, h.damage, p);
    }
  }

  lemma BookedIs(w: World, id: nat, r: Room, q: Room, h: Hit, v: World)
    requires r.turn < |r.names| == 2 && v == Booked(w, id, r, q, h)
    ensures v.rooms == w.rooms[id := q] && v.log == w.log + [h] && v.finished == w.finished + if IsOver(q) then 1 else 0
  {
  }

  lemma BookedRecords(w: World, id: nat, r: Room, q: Room, h: Hit, p: string, v: World)
    requires RecordAt(w, p) && w.finished == Over(w.rooms) && id in w.rooms && !IsOver(w.rooms[id])
    requires r.turn < |r.names| == 2 && r.names[0] != r.names[1] && h.name == r.names[r.turn]
    requires q.names == r.names && (IsOver(q) ==> q.turn == r.turn && q.winner == r.names[r.turn])
    requires v == Booked(w, id, r, q, h)
    ensures RecordAt(v, p) && v.finished == Over(v.rooms)
  {
    BookedIs(w, id, r, q, h, v);
    BookedScores(w, id, r, q, h, p, v);
    DealtMore(w.log, h, p);
    Recount(w.rooms, id, q, p);
    GrowAlike(w, v, p, if IsOver(q) && q.winner == p then 1 else 0, if IsOver(q) && Loser(q) == p then 1 else 0, if p == h.name then h.damage else 0);
  }

  lemma DealtMore(log: seq<Hit>, h: Hit, p: string)
    ensures DealtBy(log + [h], p) == DealtBy(log, p) + if h.name == p then h.damage else 0
  {
    LogAppend(log, h, 0, 0, p);
  }

  /** Books and counts that grow alike stay equal. */
  lemma GrowAlike(w: World, v: World, p: string, won: nat, lost: nat, dealt: nat)
    requires RecordAt(w, p) && RecordOf(v, p) == Plus(RecordOf(w, p), won, lost, dealt)
    requires Won(v.rooms, p) == Won(w.rooms, p) + won && Lost(v.rooms, p) == Lost(w.rooms, p) + lost
    requires DealtBy(v.log, p) == DealtBy(w.log, p) + dealt
    ensures RecordAt(v, p)
  {
  }

  lemma PlayedShape(r: Room, m: Move)
    requires r.turn < 2 && |r.states| == |r.names| == 2
    ensures Played(r, m).names == r.names && (IsOver(Played(r, m)) && r.phase == Playing ==> Played(r, m).turn == r.turn && Played(r, m).winner == r.names[r.turn])
  {
  }

  /** The records after an accepted move. */
  lemma ApplyRecords(w: World, m: Move, p: string)
    requires Inv(w) && Accepts(w, m)
    ensures RecordAt(Apply(w, m), p) && Apply(w, m).finished == Over(Apply(w, m).rooms)
  {
    var r := w.rooms[m.room];
    assert RoomAt(w, m.room) && RecordAt(w, p);
    PlayedShape(r, m);
    BookedRecords(w, m.room, r, Played(r, m), Hit(m.room, r.turn, m.name, m.kind, m.power, Damage(m, r.states[1 - r.turn])), p, Apply(w, m));
  }

  lemma StepKeeps(w: World, step: Step)
    requires Inv(w)
    ensures Inv(Next(w, step))
  {
    match step
    case Open => CreateKeeps(w);
    case Enter(id, name) => JoinKeeps(w, id, name);
    case Act(m) =>
      if Accepts(w, m) {
        var v := Apply(w, m);
        forall id: nat ensures RoomAt(v, id) { ApplyRooms(w, m, v, id); }
        forall name ensures RecordAt(v, name) { ApplyRecords(w, m, name); }
        ApplyRecords(w, m, "");
      }
  }

  function Run(steps: seq<Step>): World {
    if steps == [] then START else Next(Run(steps[..|steps| - 1]), steps[|steps| - 1])
  }

  lemma {:induction false} RunKeeps(steps: seq<Step>)
    ensures Inv(Run(steps))
  {
    if steps != [] {
      RunKeeps(steps[..|steps| - 1]);
      StepKeeps(Run(steps[..|steps| - 1]), steps[|steps| - 1]);
    } else {
      forall id: nat ensures RoomAt(START, id) {}
      forall name ensures RecordAt(START, name) {}
    }
  }

  /** Two different players with points left while the room is played, turns strictly alternating from the host,
      points lost equal to damage taken, the loser at zero when it is over, and at most 99 blows. */
  predicate InOrder(r: Room, t: Tally) {
    && t.blows0 + t.blows1 <= 99
    && (r.phase == Playing ==>
          && |r.names| == |r.states| == 2 && r.names[0] != r.names[1] && r.turn == t.actions % 2
          && 1 <= r.states[0].hp == 100 - t.dealt1 <= 100 && 1 <= r.states[1].hp == 100 - t.dealt0 <= 100)
    && (r.phase == Finished ==>
          && |r.names| == |r.states| == 2 && r.turn < 2 && r.winner == r.names[r.turn] && r.winner != Loser(r)
          && r.states[1 - r.turn].hp == 0 && 1 <= r.states[r.turn].hp <= 100)
  }

  lemma RoomInOrder(r: Room, t: Tally)
    requires RoomOk(r, t)
    ensures InOrder(r, t)
  {
  }

  /** Every room of every run is in order. */
  lemma EveryRoom(steps: seq<Step>, id: nat)
    requires id in Run(steps).rooms
    ensures InOrder(Run(steps).rooms[id], TallyOf(Run(steps).log, id))
  {
    RunKeeps(steps);
    assert RoomAt(Run(steps), id);
    RoomInOrder(Run(steps).rooms[id], TallyOf(Run(steps).log, id));
  }

  /** Every record of every run. */
  lemma EveryRecord(steps: seq<Step>, name: string)
    ensures var w := Run(steps);
            && RecordOf(w, name).wins == Won(w.rooms, name)
            && RecordOf(w, name).losses == Lost(w.rooms, name)
            && RecordOf(w, name).damage == DealtBy(w.log, name)
            && w.finished == Over(w.rooms)
  {
    RunKeeps(steps);
    assert RecordAt(Run(steps), name);
  }

  /** A room's result is final: no later step changes a room that is over. */
  lemma OverIsFinal(w: World, step: Step, id: nat)
    requires Inv(w) && id in w.rooms && w.rooms[id].phase == Finished
    ensures id in Next(w, step).rooms && Next(w, step).rooms[id] == w.rooms[id]
  {
    assert RoomAt(w, id);
  }

  /** The advertised three-turn cooldown is kept but not enforced: a special is accepted whatever it stands at. */
  lemma CooldownIsNotEnforced(w: World, m: Move, other: nat)
    requires Accepts(w, m) && m.kind == Special
    ensures var r := w.rooms[m.room];
            var q := r.(states := r.states[r.turn := r.states[r.turn].(cooldown := other)]);
            Accepts(w.(rooms := w.rooms[m.room := q]), m) && Played(q, m) == Played(r, m)
  {
    var r := w.rooms[m.room];
    var q := r.(states := r.states[r.turn := r.states[r.turn].(cooldown := other)]);
    assert Played(q, m).states == Played(r, m).states;
  }

  // ---------- The object ----------

  datatype StateUpdate = StateUpdate(attacker: string, defender: string, damage: nat, attackerHp: int, defenderHp: int, gameOver: bool)

  /** What the caller is told of an accepted move: the points as they then stand. */
  function Told(w: World, m: Move): StateUpdate
    requires Accepts(w, m)
  {
    var r := w.rooms[m.room];
    var q, a := Played(r, m), r.turn;
    StateUpdate(r.names[a], r.names[1 - a], Damage(m, r.states[1 - a]), q.states[a].hp, q.states[1 - a].hp, q.phase == Finished)
  }

  class GameRegistry {
    var rooms: map<nat, Room>
    var records: map<string, Record>
    var nextRoom: nat
    var finished: nat
    ghost var log: seq<Hit>

    ghost function View(): World reads this { World(rooms, records, nextRoom, finished, log) }

    constructor ()
      ensures View() == START
    {
      rooms, records, nextRoom, finished, log := map[], map[], 0, 0, [];
    }

    method CreateRoom() returns (id: nat)
      modifies `rooms, `nextRoom
      ensures id == old(nextRoom) + 1 && View() == Next(old(View()), Open)
    {
      nextRoom := nextRoom + 1;
      id := nextRoom;
      rooms := rooms[id := EMPTY_ROOM];
    }

    method JoinRoom(id: nat, name: string) returns (joined: bool)
      modifies `rooms
      ensures View() == Next(old(View()), Enter(id, name)) && joined == Join(old(View()), id, name).1
    {
      if id !in rooms {
        return false;
      }
      var r := rooms[id];
      for i := 0 to |r.names|
        invariant forall k :: 0 <= k < i ==> r.names[k] != name
      {
        if r.names[i] == name {
          return true;
        }
      }
      if |r.names| >= 2 || r.phase == Finished {
        return false;
      }
      r := r.(names := r.names + [name], states := r.states + [NEWCOMER]);
      if |r.names| == 2 {
        r := r.(phase := Playing);
      }
      rooms := rooms[id := r];
      return true;
    }

    /** The exchange of blows: both players after it, and the damage. */
    method Exchange(m: Move, atk: Player, def: Player) returns (atk': Player, def': Player, dmg: nat)
      ensures atk' == Attacker(m, atk) && def' == Defender(m, def) && dmg == Damage(m, def)
    {
      atk', def', dmg := atk, def, 0;
      if atk'.cooldown > 0 {
        atk' := atk'.(cooldown := atk'.cooldown - 1);
      }
      if m.kind == Defend {
        atk' := atk'.(defending := true);
      } else {
        dmg := BaseDamage(m);
        if def'.defending {
          dmg := dmg / 2;
        }
        if m.kind == Special {
          atk' := atk'.(cooldown := 3);
        }
        def' := def'.(hp := def'.hp - dmg, defending := false);
      }
      def' := def'.(hp := if def'.hp > 0 then def'.hp else 0);
    }

    method AddScore(name: string, won: nat, lost: nat, damage: nat)
      modifies `records
      ensures View() == Scored(old(View()), name, won, lost, damage)
    {
      var c := if name in records then records[name] else Record(0, 0, 0);
      records := records[name := Record(c.wins + won, c.losses + lost, c.damage + damage)];
    }

    /** Refused unless the room is being played and it is this player's turn. */
    method ApplyAction(m: Move) returns (su: Option<StateUpdate>)
      requires Inv(View())
      modifies this
      ensures View() == Next(old(View()), Act(m))
      ensures su == if old(Accepts(View(), m)) then Some(old(Told(View(), m))) else None
    {
      if m.room !in rooms {
        return None;
      }
      var r := rooms[m.room];
      assert RoomAt(View(), m.room);
      if r.phase != Playing || r.names[r.turn] != m.name {
        return None;
      }
      var a, d := r.turn, 1 - r.turn;
      var atk, def, dmg := Exchange(m, r.states[a], r.states[d]);
      var q := r.(states := r.states[a := atk][d := def], events := r.events + 1);
      if def.hp <= 0 {
        q := q.(phase := Finished, winner := r.names[a]);
      } else {
        q := q.(turn := d);
      }
      Book(m, r, q, dmg);
      su := Some(StateUpdate(r.names[a], r.names[d], dmg, atk.hp, def.hp, def.hp <= 0));
    }

    method Book(m: Move, r: Room, q: Room, dmg: nat)
      requires r.turn < |r.names| == 2
      modifies this
      ensures View() == Booked(old(View()), m.room, r, q, Hit(m.room, r.turn, m.name, m.kind, m.power, dmg))
    {
      rooms := rooms[m.room := q];
      log := log + [Hit(m.room, r.turn, m.name, m.kind, m.power, dmg)];
      if q.phase == Finished {
        AddScore(r.names[r.turn], 1, 0, dmg);
        AddScore(r.names[1 - r.turn], 0, 1, 0);
        finished := finished + 1;
      } else {
        AddScore(r.names[r.turn], 0, 0, dmg);
      }
    }
  }
}
