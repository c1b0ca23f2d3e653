/**
 * The battle: the shared state both peers keep (HP on each side, whose turn it is), the move
 * table, and what the message handler does with each message type it receives.
 */
module Battle {
  import opened Common
  import opened PyStr
  import opened Messages
  import opened Pokemon
  import opened Reliability

  // ---------------------------------------------------------------------------------------
  // Creatures, moves, damage

  /**
   * A creature as the battle sees it: its whole-number stats and, for one that came from a
   * data file, the raw row holding its type chart (`raw_row`).
   */
  datatype Creature = Creature(stats: map<string, int>, raw: Option<Row>)

  /** `{}`: no creature chosen yet. */
  const NoCreature: Creature := Creature(map[], None)

  /** The dict `load_csv` stores for a record, as the battle reads it. */
  function CreatureOf(r: Record): Creature {
    Creature(
      map["hp" := r.stats.hp, "attack" := r.stats.attack, "defense" := r.stats.defense,
          "sp_attack" := r.stats.spAttack, "sp_defense" := r.stats.spDefense, "speed" := r.stats.speed],
      Some(r.raw))
  }

  /** `p.get(key, 50)`. */
  function Stat(c: Creature, key: string): int {
    GetOr(c.stats, key, 50)
  }

  /** `p.get("hp", 100)`. */
  function HpOf(c: Creature): int {
    GetOr(c.stats, "hp", 100)
  }

  datatype MoveInfo = MoveInfo(basePower: int, category: string, moveType: string)

  /** The handler's move table, keyed by lower-case move name. */
  const MoveDb: map<string, MoveInfo> := map[
    "tackle" := MoveInfo(40, "physical", "normal"),
    "scratch" := MoveInfo(40, "physical", "normal"),
    "thunderbolt" := MoveInfo(90, "special", "electric"),
    "flamethrower" := MoveInfo(90, "special", "fire"),
    "hydro pump" := MoveInfo(110, "special", "water"),
    "vine whip" := MoveInfo(45, "physical", "grass"),
    "earthquake" := MoveInfo(100, "physical", "ground"),
    "psychic" := MoveInfo(90, "special", "psychic")]

  /** What an unknown move counts as. */
  const DefaultMove: MoveInfo := MoveInfo(50, "physical", "normal")

  /** `lookup_move(name)`. */
  function LookupMove(name: string): MoveInfo {
    GetOr(MoveDb, Lower(name), DefaultMove)
  }

  /** Every name in the move table is already in lower case. */
  lemma MoveNamesLower(k: string)
    requires k in MoveDb
    ensures Lower(k) == k
  {
    forall i | 0 <= i < |k| ensures LowerChar(k[i]) == k[i] {
      assert 'a' <= k[i] <= 'z' || k[i] == ' ';
    }
  }

  /**
   * Move names are matched without regard to letter case: a name in the table is found from
   * any spelling of it, and a name outside it counts as a 50-power physical normal move.
   */
  lemma LookupMoveAnyCase(name: string, variant: string)
    requires Lower(variant) == Lower(name)
    ensures LookupMove(variant) == LookupMove(name)
    ensures name in MoveDb ==> LookupMove(variant) == MoveDb[name]
    ensures Lower(name) !in MoveDb ==> LookupMove(variant) == DefaultMove
  {
    if name in MoveDb {
      MoveNamesLower(name);
    }
  }

  /** Who runs this peer. */
  datatype Role = Host | Joiner | Spectator

  /** `compute_damage` never returns less than 1. */
  type Damage = d: int | d >= 1 witness 1

  /**
   * What the handler relies on but this model does not compute: the floating-point damage
   * formula, `float()` on a type-chart cell, `str()` of a float, `ast.literal_eval` of the
   * creature a peer sends (`None` when it raises or yields an empty or non-dict value), the
   * clock, and the role and database it was made with.
   */
  datatype Env = Env(
    role: Role,
    db: map<string, Record>,
    damage: (int, int, int, real) -> Damage,
    parseFloat: string -> Option<real>,
    showFloat: real -> string,
    decodeCreature: string -> Option<Creature>)

  /** `get_effectiveness(move_type, defender)`: the `against_<type>` cell, 1.0 where it is missing or not a number. */
  function Effectiveness(env: Env, moveType: string, defender: Creature): real {
    match defender.raw
    case None => 1.0
    case Some(row) =>
      var key := "against_" + Lower(moveType);
      if key !in row then 1.0
      else match env.parseFloat(row[key])
        case None => 1.0
        case Some(x) => x
  }

  /** A type chart is read without regard to the letter case of the move's type. */
  lemma EffectivenessAnyCase(env: Env, t: string, variant: string, defender: Creature)
    requires Lower(variant) == Lower(t)
    ensures Effectiveness(env, variant, defender) == Effectiveness(env, t, defender)
    ensures defender.raw.None? ==> Effectiveness(env, t, defender) == 1.0
  {
  }

  /** The attacking and defending stat a move pits against each other: physical or special. */
  function Matchup(info: MoveInfo, attacker: Creature, defender: Creature): (r: (int, int)) {
    if info.category == "physical" then (Stat(attacker, "attack"), Stat(defender, "defense"))
    else (Stat(attacker, "sp_attack"), Stat(defender, "sp_defense"))
  }

  /**
   * Physical moves (every move outside the table among them) pit attack against defense, the
   * others special attack against special defense; a creature without the stat counts 50.
   */
  lemma MatchupByCategory(name: string, attacker: Creature, defender: Creature)
    ensures Lower(name) !in MoveDb ==> Matchup(LookupMove(name), attacker, defender) == (Stat(attacker, "attack"), Stat(defender, "defense"))
    ensures LookupMove(name).category == "physical" ==>
      Matchup(LookupMove(name), attacker, defender) == (Stat(attacker, "attack"), Stat(defender, "defense"))
    ensures LookupMove(name).category != "physical" ==>
      Matchup(LookupMove(name), attacker, defender) == (Stat(attacker, "sp_attack"), Stat(defender, "sp_defense"))
    ensures Lower(name) == "thunderbolt" ==>
      Matchup(LookupMove(name), attacker, defender) == (Stat(attacker, "sp_attack"), Stat(defender, "sp_defense"))
    ensures forall c: Creature, key :: key !in c.stats ==> Stat(c, key) == 50
  {
  }

  /** The damage `attacker` deals `defender` with a move. */
  function DamageOf(env: Env, info: MoveInfo, attacker: Creature, defender: Creature): Damage {
    var (atk, dfn) := Matchup(info, attacker, defender);
    env.damage(atk, dfn, info.basePower, Effectiveness(env, info.moveType, defender))
  }

  /**
   * The damage depends on the move's category, power and type, the attacker's attacking stat
   * and the defender's defending stat and type chart, and nothing else: two peers holding the
   * same creatures compute the same number.
   */
  lemma DamageDependsOnMatchup(env: Env, env2: Env, info: MoveInfo, a: Creature, d: Creature, a2: Creature, d2: Creature)
    requires env2.damage == env.damage && env2.parseFloat == env.parseFloat
    requires Matchup(info, a2, d2) == Matchup(info, a, d) && d2.raw == d.raw
    ensures DamageOf(env2, info, a2, d2) == DamageOf(env, info, a, d)
  {
  }

  // ---------------------------------------------------------------------------------------
  // Battle state

  /** `max(0, hp)`. */
  function Clamp(hp: int): int {
    if hp < 0 then 0 else hp
  }

  /** Everything a `BattleState` holds, as a value. */
  datatype BattleView = BattleView(
    myName: string, myPokemonName: string, peerName: string, peerPokemonName: Option<string>,
    myPokemon: Creature, peerPokemon: Creature, myHp: int, peerHp: int,
    turnOwnerIsMe: bool, statBoosts: map<string, int>)

  /** The answer of `is_over`: still running, or over with a winner and a loser. */
  datatype Verdict = Running | Over(winner: Option<string>, loser: Option<string>)

  /** `is_over` on a state. */
  function Judge(b: BattleView): (r: Verdict)
    ensures r.Over? <==> b.myHp <= 0 || b.peerHp <= 0
    ensures b.myHp <= 0 ==> r == Over(b.peerPokemonName, Some(b.myPokemonName))
    ensures b.myHp > 0 && b.peerHp <= 0 ==> r == Over(Some(b.myPokemonName), b.peerPokemonName)
  {
    if b.myHp <= 0 then Over(b.peerPokemonName, Some(b.myPokemonName))
    else if b.peerHp <= 0 then Over(Some(b.myPokemonName), b.peerPokemonName)
    else Running
  }

  /** `peer_name or "Peer"`. */
  function PeerNameOr(name: Option<string>): string {
    if name.None? || name.value == "" then "Peer" else name.value
  }

  const InitialBoosts: map<string, int> := map["special_attack_uses" := 5, "special_defense_uses" := 5]

  class BattleState {
    var myName: string
    var myPokemonName: string
    var peerName: string
    var peerPokemonName: Option<string>
    var myPokemon: Creature
    var peerPokemon: Creature
    var myHp: int
    var peerHp: int
    var turnOwnerIsMe: bool
    var statBoosts: map<string, int>

    function View(): BattleView
      reads this
    {
      BattleView(myName, myPokemonName, peerName, peerPokemonName, myPokemon, peerPokemon,
                 myHp, peerHp, turnOwnerIsMe, statBoosts)
    }

    /** A fresh battle: HP from each creature (100 where it has none), the peer's turn, five uses of each boost. */
    constructor(myName: string, myPokemonName: string, myPokemon: Creature,
                peerName: Option<string>, peerPokemonName: Option<string>, peerPokemon: Creature)
      ensures View() == BattleView(myName, myPokemonName, PeerNameOr(peerName), peerPokemonName,
                                   myPokemon, peerPokemon, HpOf(myPokemon), HpOf(peerPokemon),
                                   false, InitialBoosts)
    {
      this.myName := myName;
      this.myPokemonName := myPokemonName;
      this.peerName := PeerNameOr(peerName);
      this.peerPokemonName := peerPokemonName;
      this.myPokemon := myPokemon;
      this.peerPokemon := peerPokemon;
      this.myHp := HpOf(myPokemon);
      this.peerHp := HpOf(peerPokemon);
      this.turnOwnerIsMe := false;
      this.statBoosts := InitialBoosts;
    }

    /** `apply_damage_to_peer`: the peer's HP drops by `dmg`, stopping at 0; nothing else changes. */
    method ApplyDamageToPeer(dmg: int)
      modifies this
      ensures View() == old(View()).(peerHp := Clamp(old(peerHp) - dmg))
    {
      peerHp := Clamp(peerHp - dmg);
    }

    /** `apply_damage_to_me`. */
    method ApplyDamageToMe(dmg: int)
      modifies this
      ensures View() == old(View()).(myHp := Clamp(old(myHp) - dmg))
    {
      myHp := Clamp(myHp - dmg);
    }

    /** `is_over()`. */
    function IsOver(): Verdict
      reads this
    {
      Judge(View())
    }
  }

  /**
   * A fresh battle is running exactly when both creatures start with HP above 0, whatever
   * the names; a creature without an `hp` stat starts with 100, so a battle between two such
   * creatures (or none at all) is always running at first.
   */
  lemma FreshBattleRunning(myName: string, myPokemonName: string, myPokemon: Creature,
                           peerName: Option<string>, peerPokemonName: Option<string>, peerPokemon: Creature)
    ensures var b := BattleView(myName, myPokemonName, PeerNameOr(peerName), peerPokemonName,
                                myPokemon, peerPokemon, HpOf(myPokemon), HpOf(peerPokemon), false, InitialBoosts);
      && (Judge(b).Running? <==> HpOf(myPokemon) > 0 && HpOf(peerPokemon) > 0)
      && ("hp" !in myPokemon.stats && "hp" !in peerPokemon.stats ==> Judge(b).Running?)
  {
  }

  // ---------------------------------------------------------------------------------------
  // The handler, as functions of the state before a message

  /** The attack the opponent last announced (`node._last_incoming_attack`). */
  datatype Attack = Attack(moveName: string, seqNo: int)

  /** What the handler sends: through the node's reliable `send`, or as a raw datagram. */
  datatype Outbound = Reliable(msg: Message, to: Addr) | Raw(wire: Transmit)

  /** The battle state, the last incoming attack and the messages sent after handling one message. */
  datatype Step = Step(view: BattleView, last: Option<Attack>, out: seq<Outbound>)

  function TypeOnly(t: string): Message {
    [("message_type", Str(t))]
  }

  function HandshakeResponse(seed: int): Message {
    [("message_type", Str("HANDSHAKE_RESPONSE")), ("seed", Int(seed))]
  }

  /** A name as the wire renders it (`None` for a missing one). */
  function NameValue(n: Option<string>): Value {
    if n.Some? then Str(n.value) else Null
  }

  /** `HANDSHAKE_REQUEST` (with the clock as seed) and `SPECTATOR_REQUEST` (with seed 0): only the host answers. */
  function OnRequest(env: Env, b: BattleView, last: Option<Attack>, seed: int, addr: Addr): Step {
    Step(b, last, if env.role == Host then [Reliable(HandshakeResponse(seed), addr)] else [])
  }

  /**
   * `BATTLE_SETUP`: the opponent's creature is the one the message carries, or else the
   * database entry for its name, or else none; its HP comes with it (100 when none).
   */
  function OnSetup(env: Env, b: BattleView, last: Option<Attack>, msg: map<string, string>): Step {
    var pname := if "pokemon_name" in msg then Some(msg["pokemon_name"]) else None;
    var decoded := if "pokemon" in msg && msg["pokemon"] != "" then env.decodeCreature(msg["pokemon"]) else None;
    var p :=
      if decoded.Some? then decoded
      else match GetPokemon(env.db, pname)
        case None => None
        case Some(r) => Some(CreatureOf(r));
    var b' := b.(peerPokemonName := pname,
                 peerPokemon := if p.Some? then p.value else NoCreature,
                 peerHp := if p.Some? then HpOf(p.value) else 100);
    Step(b', last, [])
  }

  /** `ATTACK_ANNOUNCE`: answer `DEFENSE_ANNOUNCE` and remember the attack. */
  function OnAttackAnnounce(b: BattleView, last: Option<Attack>, msg: map<string, string>, addr: Addr): Step {
    match IntField(msg, "sequence_number")
    case None => Step(b, last, [])
    case Some(s) =>
      Step(b, Some(Attack(GetOr(msg, "move_name", "tackle"), s)), [Reliable(TypeOnly("DEFENSE_ANNOUNCE"), addr)])
  }

  /** The move this peer last announced (`tackle` when it announced none). */
  function MyMove(myMove: Option<string>): string {
    if myMove.Some? then myMove.value else "tackle"
  }

  /** The report an attacker sends once it has dealt `dmg` and reached state `b`. */
  function ReportMessage(b: BattleView, moveName: string, dmg: int, effText: string): Message {
    [("message_type", Str("CALCULATION_REPORT")),
     ("attacker", Str(b.myPokemonName)),
     ("move_used", Str(moveName)),
     ("remaining_health", Int(b.myHp)),
     ("damage_dealt", Int(dmg)),
     ("defender_hp_remaining", Int(b.peerHp)),
     ("status_message", Str("Used " + moveName + " (x" + effText + ")"))]
  }

  /** `DEFENSE_ANNOUNCE`: this peer attacks with its announced move, damages the opponent and reports. */
  function OnDefenseAnnounce(env: Env, b: BattleView, last: Option<Attack>, myMove: Option<string>, addr: Addr): Step {
    var name := MyMove(myMove);
    var info := LookupMove(name);
    var dmg := DamageOf(env, info, b.myPokemon, b.peerPokemon);
    var b' := b.(peerHp := Clamp(b.peerHp - dmg));
    var eff := Effectiveness(env, info.moveType, b.peerPokemon);
    Step(b', last, [Reliable(ReportMessage(b', name, dmg, env.showFloat(eff)), addr)])
  }

  function ResolutionMessage(attacker: string, moveName: string, dmg: int, hp: int): Message {
    [("message_type", Str("RESOLUTION_REQUEST")),
     ("attacker", Str(attacker)),
     ("move_used", Str(moveName)),
     ("damage_dealt", Int(dmg)),
     ("defender_hp_remaining", Int(hp))]
  }

  /**
   * `CALCULATION_REPORT`. From the opponent's creature: recompute the damage against this
   * peer, take it and confirm when it matches, ask for resolution when it does not. Otherwise
   * (this peer's own attack): confirm when the opponent's HP agrees. A failed `int()`, or no
   * opponent name yet (`None.lower()`), ends the handler with nothing done.
   */
  function OnReport(env: Env, b: BattleView, last: Option<Attack>, msg: map<string, string>, addr: Addr): Step {
    var attacker := GetOr(msg, "attacker", "");
    var moveName := GetOr(msg, "move_used", "tackle");
    var info := LookupMove(moveName);
    if b.peerPokemonName.None? then Step(b, last, [])
    else if Lower(attacker) == Lower(b.peerPokemonName.value) then
      var local := DamageOf(env, info, b.peerPokemon, b.myPokemon);
      match IntField(msg, "damage_dealt")
      case None => Step(b, last, [])
      case Some(reported) =>
        if local == reported then
          Step(b.(myHp := Clamp(b.myHp - local)), last, [Reliable(TypeOnly("CALCULATION_CONFIRM"), addr)])
        else
          Step(b, last, [Reliable(ResolutionMessage(attacker, moveName, local, b.myHp), addr)])
    else
      match IntField(msg, "defender_hp_remaining")
      case None => Step(b, last, [])
      case Some(hp) =>
        if hp == b.peerHp then Step(b, last, [Reliable(TypeOnly("CALCULATION_CONFIRM"), addr)])
        else match IntField(msg, "damage_dealt")
          case None => Step(b, last, [])
          case Some(d) => Step(b, last, [Reliable(ResolutionMessage(attacker, moveName, d, b.peerHp), addr)])
  }

  function GameOverMessage(winner: Option<string>, loser: Option<string>): Message {
    [("message_type", Str("GAME_OVER")), ("winner", NameValue(winner)), ("loser", NameValue(loser))]
  }

  /** `CALCULATION_CONFIRM`: the turn passes; when a side is down, announce the end. */
  function OnConfirm(b: BattleView, last: Option<Attack>, addr: Addr): Step {
    var b' := b.(turnOwnerIsMe := !b.turnOwnerIsMe);
    match Judge(b')
    case Running => Step(b', last, [])
    case Over(w, l) => Step(b', last, [Reliable(GameOverMessage(w, l), addr)])
  }

  /** `RESOLUTION_REQUEST`: adopt the opponent's HP figure, then acknowledge with a raw datagram. */
  function OnResolution(b: BattleView, last: Option<Attack>, msg: map<string, string>, addr: Addr): Step {
    match IntField(msg, "defender_hp_remaining")
    case None => Step(b, last, [])
    case Some(hp) =>
      var attacker := GetOr(msg, "attacker", "");
      var b' := if Lower(attacker) == Lower(b.myPokemonName) then b.(peerHp := hp) else b.(myHp := hp);
      match IntField(msg, "sequence_number")
      case None => Step(b', last, [])
      case Some(s) => Step(b', last, [Raw(Transmit(Serialized(MakeAck(s)), addr))])
  }

  /** `handler(msg, addr, node)`, with `int(time.time())` as `clock`. */
  function Handled(env: Env, b: BattleView, last: Option<Attack>, myMove: Option<string>,
                   msg: map<string, string>, addr: Addr, clock: nat): Step {
    var t := GetOr(msg, "message_type", "");
    if t == "HANDSHAKE_REQUEST" then OnRequest(env, b, last, clock % 0x8000_0000, addr)
    else if t == "SPECTATOR_REQUEST" then OnRequest(env, b, last, 0, addr)
    else if t == "BATTLE_SETUP" then OnSetup(env, b, last, msg)
    else if t == "ATTACK_ANNOUNCE" then OnAttackAnnounce(b, last, msg, addr)
    else if t == "DEFENSE_ANNOUNCE" then OnDefenseAnnounce(env, b, last, myMove, addr)
    else if t == "CALCULATION_REPORT" then OnReport(env, b, last, msg, addr)
    else if t == "CALCULATION_CONFIRM" then OnConfirm(b, last, addr)
    else if t == "RESOLUTION_REQUEST" then OnResolution(b, last, msg, addr)
    else Step(b, last, [])
  }

  // ---------------------------------------------------------------------------------------
  // The handler, as the object that updates the battle state

  class Handler {
    const state: BattleState
    const env: Env
    /** `node._last_incoming_attack`. */
    var lastIncomingAttack: Option<Attack>
    /** `node._my_last_announced_move`, set by the command loop. */
    var myLastMove: Option<string>

    constructor(state: BattleState, env: Env)
      ensures this.state == state && this.env == env
      ensures lastIncomingAttack.None? && myLastMove.None?
    {
      this.state := state;
      this.env := env;
      lastIncomingAttack := None;
      myLastMove := None;
    }

    /** Handle one parsed message from `addr`; return what is sent in reply. */
    method Handle(msg: map<string, string>, addr: Addr, clock: nat) returns (out: seq<Outbound>)
      modifies this, state
      ensures Step(state.View(), lastIncomingAttack, out)
              == Handled(env, old(state.View()), old(lastIncomingAttack), old(myLastMove), msg, addr, clock)
      ensures myLastMove == old(myLastMove)
    {
      var t := GetOr(msg, "message_type", "");
      out := [];
      if t == "HANDSHAKE_REQUEST" {
        if env.role == Host {
          var seed := clock % 0x8000_0000;
          out := [Reliable(HandshakeResponse(seed), addr)];
        }
      } else if t == "SPECTATOR_REQUEST" {
        if env.role == Host {
          out := [Reliable(HandshakeResponse(0), addr)];
        }
      } else if t == "BATTLE_SETUP" {
        HandleSetup(msg);
      } else if t == "ATTACK_ANNOUNCE" {
        out := HandleAttackAnnounce(msg, addr);
      } else if t == "DEFENSE_ANNOUNCE" {
        out := HandleDefenseAnnounce(addr);
      } else if t == "CALCULATION_REPORT" {
        out := HandleReport(msg, addr);
      } else if t == "CALCULATION_CONFIRM" {
        out := HandleConfirm(addr);
      } else if t == "RESOLUTION_REQUEST" {
        out := HandleResolution(msg, addr);
      }
    }

    method HandleSetup(msg: map<string, string>)
      modifies state
      ensures Step(state.View(), lastIncomingAttack, []) == OnSetup(env, old(state.View()), lastIncomingAttack, msg)
    {
      var pname := if "pokemon_name" in msg then Some(msg["pokemon_name"]) else None;
      var p: Option<Creature> := None;
      if "pokemon" in msg && msg["pokemon"] != "" {
        p := env.decodeCreature(msg["pokemon"]);
      }
      if p.None? {
        var r := GetPokemon(env.db, pname);
        if r.Some? {
          p := Some(CreatureOf(r.value));
        }
      }
      state.peerPokemonName := pname;
      state.peerPokemon := if p.Some? then p.value else NoCreature;
      state.peerHp := if p.Some? then HpOf(p.value) else 100;
    }

    method HandleAttackAnnounce(msg: map<string, string>, addr: Addr) returns (out: seq<Outbound>)
      modifies this
      ensures myLastMove == old(myLastMove)
      ensures Step(state.View(), lastIncomingAttack, out) == OnAttackAnnounce(state.View(), old(lastIncomingAttack), msg, addr)
    {
      var move := GetOr(msg, "move_name", "tackle");
      var s := IntField(msg, "sequence_number");
      if s.None? {
        return [];
      }
      out := [Reliable(TypeOnly("DEFENSE_ANNOUNCE"), addr)];
      lastIncomingAttack := Some(Attack(move, s.value));
    }

    method HandleDefenseAnnounce(addr: Addr) returns (out: seq<Outbound>)
      modifies state
      ensures Step(state.View(), lastIncomingAttack, out) == OnDefenseAnnounce(env, old(state.View()), lastIncomingAttack, myLastMove, addr)
    {
      var name := MyMove(myLastMove);
      var info := LookupMove(name);
      var atk, dfn;
      if info.category == "physical" {
        atk, dfn := Stat(state.myPokemon, "attack"), Stat(state.peerPokemon, "defense");
      } else {
        atk, dfn := Stat(state.myPokemon, "sp_attack"), Stat(state.peerPokemon, "sp_defense");
      }
      var eff := Effectiveness(env, info.moveType, state.peerPokemon);
      var dmg := env.damage(atk, dfn, info.basePower, eff);
      state.ApplyDamageToPeer(dmg);
      out := [Reliable(ReportMessage(state.View(), name, dmg, env.showFloat(eff)), addr)];
    }

    method HandleReport(msg: map<string, string>, addr: Addr) returns (out: seq<Outbound>)
      modifies state
      ensures Step(state.View(), lastIncomingAttack, out) == OnReport(env, old(state.View()), lastIncomingAttack, msg, addr)
    {
      var attacker := GetOr(msg, "attacker", "");
      var moveName := GetOr(msg, "move_used", "tackle");
      var info := LookupMove(moveName);
      if state.peerPokemonName.None? {
        return [];
      }
      if Lower(attacker) == Lower(state.peerPokemonName.value) {
        var local := DamageOf(env, info, state.peerPokemon, state.myPokemon);
        var reported := IntField(msg, "damage_dealt");
        if reported.None? {
          return [];
        }
        if local == reported.value {
          state.ApplyDamageToMe(local);
          out := [Reliable(TypeOnly("CALCULATION_CONFIRM"), addr)];
        } else {
          out := [Reliable(ResolutionMessage(attacker, moveName, local, state.myHp), addr)];
        }
      } else {
        var hp := IntField(msg, "defender_hp_remaining");
        if hp.None? {
          return [];
        }
        if hp.value == state.peerHp {
          out := [Reliable(TypeOnly("CALCULATION_CONFIRM"), addr)];
        } else {
          var d := IntField(msg, "damage_dealt");
          if d.None? {
            return [];
          }
          out := [Reliable(ResolutionMessage(attacker, moveName, d.value, state.peerHp), addr)];
        }
      }
    }

    method HandleConfirm(addr: Addr) returns (out: seq<Outbound>)
      modifies state
      ensures Step(state.View(), lastIncomingAttack, out) == OnConfirm(old(state.View()), lastIncomingAttack, addr)
    {
      state.turnOwnerIsMe := !state.turnOwnerIsMe;
      var verdict := state.IsOver();
      out := [];
      if verdict.Over? {
        out := [Reliable(GameOverMessage(verdict.winner, verdict.loser), addr)];
      }
    }

    method HandleResolution(msg: map<string, string>, addr: Addr) returns (out: seq<Outbound>)
      modifies state
      ensures Step(state.View(), lastIncomingAttack, out) == OnResolution(old(state.View()), lastIncomingAttack, msg, addr)
    {
      var theirHp := IntField(msg, "defender_hp_remaining");
      if theirHp.None? {
        return [];
      }
      var attacker := GetOr(msg, "attacker", "");
      if Lower(attacker) == Lower(state.myPokemonName) {
        state.peerHp := theirHp.value;
      } else {
        state.myHp := theirHp.value;
      }
      var s := IntField(msg, "sequence_number");
      if s.None? {
        return [];
      }
      out := [Raw(Transmit(Serialized(MakeAck(s.value)), addr))];
    }
  }

  // ---------------------------------------------------------------------------------------
  // Properties

  /**
   * Only the host answers a handshake or spectator request, whatever move this peer has
   * announced: a handshake with the clock cut to 31 bits as seed, a spectator with seed 0.
   */
  lemma RequestAnswered(env: Env, b: BattleView, last: Option<Attack>, myMove: Option<string>,
                        msg: map<string, string>, addr: Addr, clock: nat)
    requires GetOr(msg, "message_type", "") in {"HANDSHAKE_REQUEST", "SPECTATOR_REQUEST"}
    ensures var st := Handled(env, b, last, myMove, msg, addr, clock);
      && st.view == b && st.last == last
      && (env.role == Host <==> st.out != [])
      && (st.out != [] ==> exists seed :: 0 <= seed < 0x8000_0000 && st.out == [Reliable(HandshakeResponse(seed), addr)])
      && (env.role == Host && GetOr(msg, "message_type", "") == "HANDSHAKE_REQUEST" ==>
            st.out == [Reliable(HandshakeResponse(clock % 0x8000_0000), addr)])
      && (env.role == Host && GetOr(msg, "message_type", "") == "SPECTATOR_REQUEST" ==>
            st.out == [Reliable(HandshakeResponse(0), addr)])
  {
    var seed := if GetOr(msg, "message_type", "") == "HANDSHAKE_REQUEST" then clock % 0x8000_0000 else 0;
    assert Handled(env, b, last, myMove, msg, addr, clock) == OnRequest(env, b, last, seed, addr);
  }

  /**
   * Setup with no usable creature in the message takes the opponent's record from the
   * database, HP included; with no record, or no name at all, the opponent has no creature
   * and 100 HP. Only the opponent's name, creature and HP change.
   */
  lemma SetupFromDatabase(env: Env, b: BattleView, last: Option<Attack>, msg: map<string, string>)
    requires "pokemon" !in msg || msg["pokemon"] == "" || env.decodeCreature(msg["pokemon"]).None?
    ensures var st := OnSetup(env, b, last, msg);
      && st.view == b.(peerPokemonName := st.view.peerPokemonName, peerPokemon := st.view.peerPokemon, peerHp := st.view.peerHp)
      && st.last == last && st.out == []
      && ("pokemon_name" !in msg ==>
            st.view.peerPokemonName == None && st.view.peerPokemon == NoCreature && st.view.peerHp == 100)
      && ("pokemon_name" in msg ==>
            var name := msg["pokemon_name"];
            && st.view.peerPokemonName == Some(name)
            && (Normalize(name) in env.db ==>
                  st.view.peerPokemon == CreatureOf(env.db[Normalize(name)])
                  && st.view.peerHp == env.db[Normalize(name)].stats.hp)
            && (Normalize(name) !in env.db ==> st.view.peerPokemon == NoCreature && st.view.peerHp == 100))
  {
  }

  /** A creature carried in the setup message wins over the database. */
  lemma SetupFromMessage(env: Env, b: BattleView, last: Option<Attack>, msg: map<string, string>, c: Creature)
    requires "pokemon" in msg && msg["pokemon"] != "" && env.decodeCreature(msg["pokemon"]) == Some(c)
    ensures OnSetup(env, b, last, msg).view.peerPokemon == c
    ensures OnSetup(env, b, last, msg).view.peerHp == HpOf(c)
  {
  }

  /** An attack announcement is answered and remembered with its number; a bad number stops it. */
  lemma AttackRemembered(b: BattleView, last: Option<Attack>, msg: map<string, string>, addr: Addr)
    ensures var st := OnAttackAnnounce(b, last, msg, addr);
      && st.view == b
      && (IntField(msg, "sequence_number").None? ==> st.last == last && st.out == [])
      && (IntField(msg, "sequence_number").Some? ==>
            st.last == Some(Attack(GetOr(msg, "move_name", "tackle"), IntField(msg, "sequence_number").value))
            && st.out == [Reliable(TypeOnly("DEFENSE_ANNOUNCE"), addr)])
  {
  }

  /** The fields of a report, as the receiver looks them up. */
  lemma ReportFields(b: BattleView, moveName: string, dmg: int, effText: string)
    ensures var m := ReportMessage(b, moveName, dmg, effText);
      && Get(m, "message_type") == Some(Str("CALCULATION_REPORT"))
      && Get(m, "attacker") == Some(Str(b.myPokemonName))
      && Get(m, "move_used") == Some(Str(moveName))
      && Get(m, "remaining_health") == Some(Int(b.myHp))
      && Get(m, "damage_dealt") == Some(Int(dmg))
      && Get(m, "defender_hp_remaining") == Some(Int(b.peerHp))
  {
    var m := ReportMessage(b, moveName, dmg, effText);
    assert m[0].0 != m[4].0 by { assert m[0].0[1] != m[4].0[1]; }
    GetAt(m, 0);
    GetAt(m, 1);
    GetAt(m, 2);
    GetAt(m, 3);
    GetAt(m, 4);
    GetAt(m, 5);
  }

  /**
   * A report whose fields are single trimmed lines reaches the defender with the attacker's
   * name, the move, the damage and the defender's remaining HP intact.
   */
  lemma ReportReadBack(b: BattleView, moveName: string, dmg: int, effText: string)
    requires var m := ReportMessage(b, moveName, dmg, effText); forall i :: 0 <= i < |m| ==> Transparent(m[i])
    ensures var msg := Parsed(Serialized(ReportMessage(b, moveName, dmg, effText)));
      && GetOr(msg, "attacker", "") == b.myPokemonName
      && GetOr(msg, "move_used", "tackle") == moveName
      && IntField(msg, "damage_dealt") == Some(dmg)
      && IntField(msg, "defender_hp_remaining") == Some(b.peerHp)
  {
    var m := ReportMessage(b, moveName, dmg, effText);
    ReportFields(b, moveName, dmg, effText);
    RoundTrip(m);
    AsStringsGet(m, "attacker");
    AsStringsGet(m, "move_used");
    AsStringsGet(m, "damage_dealt");
    AsStringsGet(m, "defender_hp_remaining");
    IntFieldReads(Parsed(Serialized(m)), "damage_dealt", dmg);
    IntFieldReads(Parsed(Serialized(m)), "defender_hp_remaining", b.peerHp);
  }

  /**
   * Answering `DEFENSE_ANNOUNCE`: the opponent loses the damage of this peer's move (at least
   * 1 HP, never below 0), nothing else changes, and one report goes back carrying that damage
   * and the opponent's HP as this peer now sees it.
   */
  lemma DefenseAnnounceReports(env: Env, b: BattleView, last: Option<Attack>, myMove: Option<string>, addr: Addr)
    ensures var st := OnDefenseAnnounce(env, b, last, myMove, addr);
      var dmg := DamageOf(env, LookupMove(MyMove(myMove)), b.myPokemon, b.peerPokemon);
      && st.view == b.(peerHp := Clamp(b.peerHp - dmg))
      && st.view.peerHp >= 0
      && (b.peerHp > 0 ==> st.view.peerHp < b.peerHp)
      && st.last == last
      && |st.out| == 1 && st.out[0].Reliable? && st.out[0].to == addr
      && Get(st.out[0].msg, "message_type") == Some(Str("CALCULATION_REPORT"))
      && Get(st.out[0].msg, "damage_dealt") == Some(Int(dmg))
      && Get(st.out[0].msg, "defender_hp_remaining") == Some(Int(st.view.peerHp))
      && Get(st.out[0].msg, "remaining_health") == Some(Int(b.myHp))
      && Get(st.out[0].msg, "move_used") == Some(Str(MyMove(myMove)))
  {
    var st := OnDefenseAnnounce(env, b, last, myMove, addr);
    var info := LookupMove(MyMove(myMove));
    ReportFields(st.view, MyMove(myMove), DamageOf(env, info, b.myPokemon, b.peerPokemon),
                 env.showFloat(Effectiveness(env, info.moveType, b.peerPokemon)));
  }

  /**
   * A report of the opponent's attack: when this peer computes the same damage it takes
   * exactly that damage and confirms; otherwise its HP stays and it asks for resolution with
   * its own figure and its own HP.
   */
  lemma ReportOfOpponentAttack(env: Env, b: BattleView, last: Option<Attack>, msg: map<string, string>, addr: Addr)
    requires b.peerPokemonName.Some? && Lower(GetOr(msg, "attacker", "")) == Lower(b.peerPokemonName.value)
    ensures var st := OnReport(env, b, last, msg, addr);
      var local := DamageOf(env, LookupMove(GetOr(msg, "move_used", "tackle")), b.peerPokemon, b.myPokemon);
      && st.last == last
      && (IntField(msg, "damage_dealt") == Some(local) ==>
            st.view == b.(myHp := Clamp(b.myHp - local))
            && st.out == [Reliable(TypeOnly("CALCULATION_CONFIRM"), addr)])
      && (IntField(msg, "damage_dealt") != Some(local) ==> st.view == b)
      && (IntField(msg, "damage_dealt").Some? && IntField(msg, "damage_dealt") != Some(local) ==>
            st.out == [Reliable(ResolutionMessage(GetOr(msg, "attacker", ""), GetOr(msg, "move_used", "tackle"), local, b.myHp), addr)])
  {
  }

  /**
   * A report of this peer's own attack changes nothing here: it is confirmed when the
   * opponent's remaining HP agrees with this peer's figure, and answered with that figure
   * otherwise.
   */
  lemma ReportOfOwnAttack(env: Env, b: BattleView, last: Option<Attack>, msg: map<string, string>, addr: Addr)
    requires b.peerPokemonName.Some? && Lower(GetOr(msg, "attacker", "")) != Lower(b.peerPokemonName.value)
    ensures var st := OnReport(env, b, last, msg, addr);
      && st.view == b && st.last == last
      && (IntField(msg, "defender_hp_remaining") == Some(b.peerHp) ==> st.out == [Reliable(TypeOnly("CALCULATION_CONFIRM"), addr)])
      && (IntField(msg, "defender_hp_remaining").Some? && IntField(msg, "defender_hp_remaining") != Some(b.peerHp)
          && IntField(msg, "damage_dealt").Some? ==>
            st.out == [Reliable(ResolutionMessage(GetOr(msg, "attacker", ""), GetOr(msg, "move_used", "tackle"),
                                                  IntField(msg, "damage_dealt").value, b.peerHp), addr)])
  {
  }

  /**
   * A confirmation passes the turn and changes nothing else; `GAME_OVER` is sent exactly when
   * a side is down, naming this peer's creature the loser when its own HP is gone.
   */
  lemma ConfirmPassesTurn(b: BattleView, last: Option<Attack>, addr: Addr)
    ensures var st := OnConfirm(b, last, addr);
      && st.view == b.(turnOwnerIsMe := !b.turnOwnerIsMe)
      && st.last == last
      && (st.out != [] <==> b.myHp <= 0 || b.peerHp <= 0)
      && (b.myHp <= 0 ==> st.out == [Reliable(GameOverMessage(b.peerPokemonName, Some(b.myPokemonName)), addr)])
      && (b.myHp > 0 && b.peerHp <= 0 ==> st.out == [Reliable(GameOverMessage(Some(b.myPokemonName), b.peerPokemonName), addr)])
  {
    var b' := b.(turnOwnerIsMe := !b.turnOwnerIsMe);
    assert Judge(b') == Judge(b);
  }

  /**
   * A resolution request overwrites one HP figure with the number it carries: the opponent's
   * when it names this peer's creature as the attacker, this peer's own otherwise; it is
   * acknowledged with a raw `ACK` of its sequence number that the sender reads back.
   */
  lemma ResolutionAdopted(b: BattleView, last: Option<Attack>, msg: map<string, string>, addr: Addr, hp: int, s: int)
    requires IntField(msg, "defender_hp_remaining") == Some(hp) && IntField(msg, "sequence_number") == Some(s)
    ensures var st := OnResolution(b, last, msg, addr);
      && st.last == last
      && (Lower(GetOr(msg, "attacker", "")) == Lower(b.myPokemonName) ==> st.view == b.(peerHp := hp))
      && (Lower(GetOr(msg, "attacker", "")) != Lower(b.myPokemonName) ==> st.view == b.(myHp := hp))
      && st.out == [Raw(Transmit(Serialized(MakeAck(s)), addr))]
      && var p := Parsed(Serialized(MakeAck(s)));
         "ack_number" in p && "message_type" in p && p["message_type"] == "ACK" && ParseInt(p["ack_number"]) == Some(s)
  {
    AckRoundTrip(s);
  }

  /**
   * Apart from setup and resolution, which take HP figures from the opponent, no message
   * raises either HP or takes it below 0, and none touches the names, creatures or boosts.
   */
  lemma HpOnlyFalls(env: Env, b: BattleView, last: Option<Attack>, myMove: Option<string>,
                    msg: map<string, string>, addr: Addr, clock: nat)
    requires GetOr(msg, "message_type", "") !in {"BATTLE_SETUP", "RESOLUTION_REQUEST"}
    requires b.myHp >= 0 && b.peerHp >= 0
    ensures var st := Handled(env, b, last, myMove, msg, addr, clock);
      && 0 <= st.view.myHp <= b.myHp && 0 <= st.view.peerHp <= b.peerHp
      && st.view == b.(myHp := st.view.myHp, peerHp := st.view.peerHp, turnOwnerIsMe := st.view.turnOwnerIsMe)
  {
    var t := GetOr(msg, "message_type", "");
    var st := Handled(env, b, last, myMove, msg, addr, clock);
    if t == "DEFENSE_ANNOUNCE" {
      assert st == OnDefenseAnnounce(env, b, last, myMove, addr);
      DefenseAnnounceReports(env, b, last, myMove, addr);
    } else if t == "CALCULATION_REPORT" {
      assert st == OnReport(env, b, last, msg, addr);
      if b.peerPokemonName.Some? {
        if Lower(GetOr(msg, "attacker", "")) == Lower(b.peerPokemonName.value) {
          ReportOfOpponentAttack(env, b, last, msg, addr);
        } else {
          ReportOfOwnAttack(env, b, last, msg, addr);
        }
      }
    } else if t == "CALCULATION_CONFIRM" {
      assert st == OnConfirm(b, last, addr);
    } else if t == "ATTACK_ANNOUNCE" {
      assert st == OnAttackAnnounce(b, last, msg, addr);
    } else {
      assert st.view == b;
    }
  }

  /**
   * Two peers that agree on each other's creatures and on the defender's HP agree after a
   * turn: the defender, reading the attacker's report off the wire, computes the same damage,
   * confirms, and ends with the HP the attacker recorded for it.
   */
  lemma TurnKeepsPeersInSync(
    envA: Env, a: BattleView, lastA: Option<Attack>, myMove: Option<string>, addrD: Addr,
    envD: Env, d: BattleView, lastD: Option<Attack>, addrA: Addr)
    requires envD.damage == envA.damage && envD.parseFloat == envA.parseFloat
    requires d.peerPokemon == a.myPokemon && d.myPokemon == a.peerPokemon && d.myHp == a.peerHp
    requires d.peerPokemonName == Some(a.myPokemonName)
    requires var r := OnDefenseAnnounce(envA, a, lastA, myMove, addrD).out[0].msg;
      forall i :: 0 <= i < |r| ==> Transparent(r[i])
    ensures var sa := OnDefenseAnnounce(envA, a, lastA, myMove, addrD);
      var sd := OnReport(envD, d, lastD, Parsed(Serialized(sa.out[0].msg)), addrA);
      && sd.view.myHp == sa.view.peerHp
      && sd.view.turnOwnerIsMe == d.turnOwnerIsMe
      && sd.out == [Reliable(TypeOnly("CALCULATION_CONFIRM"), addrA)]
  {
    var sa := OnDefenseAnnounce(envA, a, lastA, myMove, addrD);
    var name := MyMove(myMove);
    var info := LookupMove(name);
    var dmg := DamageOf(envA, info, a.myPokemon, a.peerPokemon);
    var effText := envA.showFloat(Effectiveness(envA, info.moveType, a.peerPokemon));
    assert sa.out[0].msg == ReportMessage(sa.view, name, dmg, effText);
    ReportReadBack(sa.view, name, dmg, effText);
    var msg := Parsed(Serialized(sa.out[0].msg));
    DamageDependsOnMatchup(envA, envD, info, a.myPokemon, a.peerPokemon, d.peerPokemon, d.myPokemon);
    ReportOfOpponentAttack(envD, d, lastD, msg, addrA);
  }
}
