/**
 * GameEngine itself: the object that builds the rooms, places the cast, and runs the game
 * loop and the attack sub-loop over the lines a player types.
 *
 * The console is an input script: both loops read the next line of input, and a loop that
 * finds the script used up stops. Random draws are room indices handed in by the caller,
 * and CharacterBase.Attack is the strike function (see module Dungeon). Each method is
 * proved to change the objects exactly as the matching function of module Rules changes
 * a World, so everything proved there holds of the engine.
 */
module GameEngine {
  import opened Wrappers
  import opened Layout
  import opened Input
  import opened Dungeon
  import opened Rules

  class Engine {
    /** _player, _goblin, _kobold and _drake, the characters the context holds. */
    const player: Character
    const goblin: Character
    const kobold: Character
    const drake: Character

    /** _rooms: the placement list SetupRooms stores. */
    var rooms: seq<Room>

    /** The room object SetupRooms created for each place. */
    ghost var placeRoom: map<Place, Room>

    /** The place of the player's current room. */
    ghost var here: Place

    /** The context's player, goblin, kobold and drake, each of its own kind. */
    constructor (player: Character, goblin: Character, kobold: Character, drake: Character)
      requires player.kind == Hero && goblin.kind == Goblin && kobold.kind.Kobold? && drake.kind.Drake?
      ensures this.player == player && this.goblin == goblin && this.kobold == kobold && this.drake == drake
      ensures rooms == []
    {
      this.player, this.goblin, this.kobold, this.drake := player, goblin, kobold, drake;
      rooms := [];
      placeRoom := map[];
      here := Entrance;
    }

    /** The characters the engine ever puts in a room. */
    function Roster(): set<Character>
    {
      {player, goblin, kobold, drake}
    }

    /**
     * The rooms are as SetupRooms built them: one distinct room per place, named after it,
     * with exactly the exits of the exit table, and _rooms lists the placement rooms in order.
     */
    ghost predicate Built()
      reads this`rooms, this`placeRoom, placeRoom.Values`north, placeRoom.Values`south,
            placeRoom.Values`east, placeRoom.Values`west
    {
      Laid(placeRoom, rooms)
    }

    /** The cast's HP. */
    function Hp(): (hp: map<Character, int>)
      reads player, goblin, kobold, drake
      ensures forall c :: c in Roster() ==> HpOf(hp, c) == c.hp
    {
      map c | c in Roster() :: c.hp
    }

    /**
     * The objects are in the state the World w describes: the player stands in room w.at,
     * every room holds the occupant list w gives its place, and the cast's HP are w's.
     */
    ghost predicate Mirrors(w: World)
      reads this`rooms, this`placeRoom, this`here, placeRoom.Values, player`currentRoom, Roster()`hp
    {
      Built() && w.at == here && player.currentRoom == placeRoom[here] && w.Valid(player) &&
      (forall p: Place :: InRoom(w.occupants, p) == placeRoom[p].characters) &&
      (forall c :: c in Roster() ==> HpOf(w.hp, c) == c.hp)
    }

    /**
     * The fourteen exit assignments of SetupRooms, in the order it makes them, on eight
     * distinct rooms whose exits are all unset: afterwards every exit is as the exit table says.
     */
    static method LinkRooms(entrance: Room, treasureRoom: Room, dungeonRoom: Room, library: Room, armory: Room,
                            garden: Room, shop: Room, bedChamber: Room)
      requires entrance != treasureRoom && entrance != dungeonRoom && entrance != library && entrance != armory
      requires entrance != garden && entrance != shop && entrance != bedChamber && treasureRoom != dungeonRoom
      requires treasureRoom != library && treasureRoom != armory && treasureRoom != garden && treasureRoom != shop
      requires treasureRoom != bedChamber && dungeonRoom != library && dungeonRoom != armory && dungeonRoom != garden
      requires dungeonRoom != shop && dungeonRoom != bedChamber && library != armory && library != garden
      requires library != shop && library != bedChamber && armory != garden && armory != shop
      requires armory != bedChamber && garden != shop && garden != bedChamber && shop != bedChamber
      requires entrance.north == null && entrance.south == null && entrance.east == null && entrance.west == null
      requires treasureRoom.north == null && treasureRoom.south == null && treasureRoom.east == null && treasureRoom.west == null
      requires dungeonRoom.north == null && dungeonRoom.south == null && dungeonRoom.east == null && dungeonRoom.west == null
      requires library.north == null && library.south == null && library.east == null && library.west == null
      requires armory.north == null && armory.south == null && armory.east == null && armory.west == null
      requires garden.north == null && garden.south == null && garden.east == null && garden.west == null
      requires shop.north == null && shop.south == null && shop.east == null && shop.west == null
      requires bedChamber.north == null && bedChamber.south == null && bedChamber.east == null && bedChamber.west == null
      modifies entrance, treasureRoom, dungeonRoom, library, armory, garden, shop, bedChamber
      ensures entrance.north == treasureRoom && entrance.south == null && entrance.east == garden && entrance.west == library
      ensures treasureRoom.north == null && treasureRoom.south == entrance && treasureRoom.east == null && treasureRoom.west == dungeonRoom
      ensures dungeonRoom.north == null && dungeonRoom.south == null && dungeonRoom.east == treasureRoom && dungeonRoom.west == null
      ensures library.north == null && library.south == armory && library.east == entrance && library.west == null
      ensures armory.north == library && armory.south == null && armory.east == null && armory.west == null
      ensures garden.north == null && garden.south == bedChamber && garden.east == shop && garden.west == entrance
      ensures shop.north == null && shop.south == null && shop.east == null && shop.west == garden
      ensures bedChamber.north == garden && bedChamber.south == null && bedChamber.east == null && bedChamber.west == null
      ensures entrance.characters == old(entrance.characters) && treasureRoom.characters == old(treasureRoom.characters) && dungeonRoom.characters == old(dungeonRoom.characters) && library.characters == old(library.characters)
      ensures armory.characters == old(armory.characters) && garden.characters == old(garden.characters) && shop.characters == old(shop.characters) && bedChamber.characters == old(bedChamber.characters)
    {
      entrance.north := treasureRoom;
      entrance.west := library;
      entrance.east := garden;

      treasureRoom.south := entrance;
      treasureRoom.west := dungeonRoom;

      dungeonRoom.east := treasureRoom;

      library.east := entrance;
      library.south := armory;

      armory.north := library;

      garden.west := entrance;
      garden.east := shop;
      garden.south := bedChamber;

      shop.west := garden;

      bedChamber.north := garden;
    }

    /**
     * SetupRooms: create the eight rooms, assign the fourteen exits one by one, store the
     * six placement rooms in _rooms, and return the entrance.
     */
    method SetupRooms() returns (start: Room)
      modifies this`rooms, this`placeRoom
      ensures Built() && start == placeRoom[Entrance]
      ensures forall p: Place :: fresh(placeRoom[p]) && placeRoom[p].characters == []
    {
      var entrance := new Room("entrance");
      var treasureRoom := new Room("treasure");
      var dungeonRoom := new Room("dungeon");
      var library := new Room("library");
      var armory := new Room("armory");
      var garden := new Room("garden");
      var shop := new Room("shop");
      var bedChamber := new Room("bedchamber");
      LinkRooms(entrance, treasureRoom, dungeonRoom, library, armory, garden, shop, bedChamber);

      rooms := [entrance, treasureRoom, dungeonRoom, library, armory, garden];
      placeRoom := map[Entrance := entrance, Treasure := treasureRoom, Dungeon := dungeonRoom,
                       Library := library, Armory := armory, Garden := garden, Shop := shop,
                       BedChamber := bedChamber];
      start := entrance;
      LaidOut(placeRoom, rooms, entrance, treasureRoom, dungeonRoom, library, armory, garden, shop, bedChamber);
    }

    /**
     * The direction branch of GameLoop: _player.Move(direction), which is module Rules'
     * Move on the world the objects mirror.
     */
    method Walk(d: Direction, ghost w: World)
      requires Mirrors(w)
      modifies player`currentRoom, placeRoom.Values`characters, this`here
      ensures Mirrors(Rules.Move(w, player, d))
    {
      ghost var src := here;
      ghost var next := Rules.Move(w, player, d);
      LaidDistinct(placeRoom, rooms);
      if Plan(src, d).Some? {
        PlanLeaves(src, d);
      }
      player.Move(d);
      if Plan(src, d).Some? {
        here := Plan(src, d).value;
      }
    }

    /** _player.Attack(target), one strike: the HP snapshot changes at the target alone. */
    method Hit(target: Character, strike: (Character, int) -> int, ghost hp: map<Character, int>)
      requires target in Roster() && forall c :: c in Roster() ==> HpOf(hp, c) == c.hp
      modifies target`hp
      ensures forall c :: c in Roster() ==> HpOf(hp[target := strike(target, HpOf(hp, target))], c) == c.hp
    {
      player.Attack(target, strike);
    }

    /** The four characters, counted once each. */
    ghost function Cast(): multiset<Character>
    {
      multiset{player, goblin, kobold, drake}
    }

    /**
     * AttackCharacter, reading its lines from input starting at from: while somebody else in
     * the player's room has HP other than 0, list them, read a choice, and strike the chosen
     * one, leave on the entry after the list, or ask again; it returns where it stopped
     * reading. It does what module Rules' AttackLoop does to the mirrored world's HP.
     */
    method AttackCharacter(input: seq<string>, from: nat, strike: (Character, int) -> int, ghost hp0: map<Character, int>)
      returns (next: nat)
      requires player.currentRoom != null && from <= |input|
      requires forall c :: c in player.currentRoom.characters ==> c in Roster()
      requires forall c :: c in Roster() ==> HpOf(hp0, c) == c.hp
      modifies Roster()`hp
      ensures var a := AttackLoop(player.currentRoom.characters, player, hp0, Choices(input), from, strike);
        next == a.stop && forall c :: c in Roster() ==> HpOf(a.hp, c) == c.hp
    {
      ghost var occ := player.currentRoom.characters;
      ghost var goal := AttackLoop(occ, player, hp0, Choices(input), from, strike);
      ghost var hp := hp0;
      var room := player.currentRoom;
      next := from;
      var done := false;
      while !done
        invariant next <= |input| && room.characters == occ
        invariant forall c :: c in Roster() ==> HpOf(hp, c) == c.hp
        invariant if done then goal.hp == hp && goal.stop == next
                  else AttackLoop(occ, player, hp, Choices(input), next, strike) == goal
        decreases |input| - next, !done
      {
        done, next, hp := Round(room, input, next, strike, occ, hp);
      }
    }

    /**
     * One pass of AttackCharacter's loop: list the targets in the room; with none (or no
     * line left to read) stop, otherwise read a choice and act on it.
     */
    method Round(room: Room, input: seq<string>, at: nat, strike: (Character, int) -> int,
                 ghost occ: seq<Character>, ghost hp: map<Character, int>)
      returns (done: bool, next: nat, ghost after: map<Character, int>)
      requires at <= |input| && room.characters == occ
      requires forall c :: c in occ ==> c in Roster()
      requires forall c :: c in Roster() ==> HpOf(hp, c) == c.hp
      modifies Roster()`hp
      ensures forall c :: c in Roster() ==> HpOf(after, c) == c.hp
      ensures var a := AttackLoop(occ, player, hp, Choices(input), at, strike);
        if done then a.hp == after && a.stop == next
        else next == at + 1 <= |input| && a == AttackLoop(occ, player, after, Choices(input), next, strike)
    {
      var targets := Standing(room.characters, player);
      assert targets == Live(occ, player, hp) by {
        StandingIsLive(occ, player, hp);
      }
      if targets == [] || at == |input| {
        done, next, after := true, at, hp;
      } else {
        done, after := Choose(input, at, targets, strike, occ, hp);
        next := at + 1;
      }
    }

    /**
     * One pass of AttackCharacter's loop body once the targets are listed: read a choice,
     * then strike the chosen target, decline (done), or ignore an invalid choice.
     */
    method Choose(input: seq<string>, at: nat, targets: seq<Character>, strike: (Character, int) -> int,
                  ghost occ: seq<Character>, ghost hp: map<Character, int>)
      returns (done: bool, ghost after: map<Character, int>)
      requires at < |input| && targets == Live(occ, player, hp) && targets != []
      requires forall c :: c in occ ==> c in Roster()
      requires forall c :: c in Roster() ==> HpOf(hp, c) == c.hp
      modifies Roster()`hp
      ensures forall c :: c in Roster() ==> HpOf(after, c) == c.hp
      ensures var choices := Choices(input);
        if done then AttackLoop(occ, player, hp, choices, at, strike) == AttackResult(after, at + 1, Declined)
        else AttackLoop(occ, player, hp, choices, at, strike) == AttackLoop(occ, player, after, choices, at + 1, strike)
    {
      ghost var choices := Choices(input);
      var choice := ParseChoice(input[at]);
      ChoiceAt(input, at);
      after := hp;
      done := false;
      if 1 <= choice <= |targets| {
        var target := targets[choice - 1];
        StrikeThenContinue(occ, player, hp, choices, at, strike, target);
        Hit(target, strike, hp);
        after := hp[target := strike(target, HpOf(hp, target))];
      } else if choice - 1 == |targets| {
        DeclineLeaves(occ, player, hp, choices, at, strike);
        done := true;
      } else {
        InvalidChoiceReprompts(occ, player, hp, choices, at, strike);
      }
    }

    /** Every occupant of a world holding exactly the cast is one of the four. */
    lemma InCast(w: World, p: Place, c: Character)
      requires Population(w) == Cast() && c in InRoom(w.occupants, p)
      ensures c in Roster()
    {
      OccupantCounted(w, p, c);
    }

    /** A room's AddCharacter, on the room of place p: it is module Rules' Join on the mirrored world. */
    method Admit(room: Room, c: Character, ghost p: Place, ghost w: World)
      requires Mirrors(w) && room == placeRoom[p]
      modifies room`characters
      ensures Mirrors(w.(occupants := Join(w.occupants, p, c)))
    {
      LaidDistinct(placeRoom, rooms);
      room.AddCharacter(c);
    }

    /**
     * LoadMonsters with random.Next(_rooms.Count) drawn twice, as goblinIndex and koboldIndex:
     * the goblin joins the first drawn room, the kobold and then the drake the second.
     */
    method LoadMonsters(goblinIndex: nat, koboldIndex: nat, ghost w: World)
      requires Mirrors(w) && goblinIndex < |rooms| && koboldIndex < |rooms|
      modifies placeRoom.Values`characters
      ensures Mirrors(w.(occupants := Populate(w.occupants, goblin, kobold, drake, goblinIndex, koboldIndex)))
    {
      ghost var g, k := Placement[goblinIndex], Placement[koboldIndex];
      ghost var first := w.(occupants := Join(w.occupants, g, goblin));
      ghost var second := first.(occupants := Join(first.occupants, k, kobold));
      var randomRoom := rooms[goblinIndex];
      Admit(randomRoom, goblin, g, w);
      randomRoom := rooms[koboldIndex];
      Admit(randomRoom, kobold, k, first);
      Admit(randomRoom, drake, k, second);
    }

    /** The options GameLoop lists, with the attack only when somebody else in the room has HP other than 0. */
    function Actions(): (menu: seq<Command>)
      requires player.currentRoom != null
      reads player`currentRoom, {player.currentRoom}`characters,
            (set i | 0 <= i < |player.currentRoom.characters| :: player.currentRoom.characters[i])`hp
    {
      [Go(North), Go(South), Go(East), Go(West)]
      + (if Standing(player.currentRoom.characters, player) != [] then [Fight] else [])
      + [Quit]
    }

    /** The listed options are the mirrored world's action menu. */
    lemma ActionsMirror(w: World)
      requires Mirrors(w) && Population(w) == Cast()
      ensures Actions() == ActionMenu(InRoom(w.occupants, w.at), player, w.hp)
    {
      ghost var occ := InRoom(w.occupants, w.at);
      forall c | c in occ
        ensures HpOf(w.hp, c) == c.hp
      {
        InCast(w, w.at, c);
      }
      StandingIsLive(occ, player, w.hp);
      AnyLiveIffTargets(occ, player, w.hp);
    }

    /**
     * GameLoop's "5" branch: with anybody else in the room, run AttackCharacter on the lines
     * after the command; otherwise attack nothing.
     */
    method AttackBranch(input: seq<string>, at: nat, strike: (Character, int) -> int, ghost w: World) returns (next: nat)
      requires Mirrors(w) && Population(w) == Cast() && at < |input|
      modifies Roster()`hp
      ensures var here := InRoom(w.occupants, w.at);
        if AnyOther(here, player) then
          var a := AttackLoop(here, player, w.hp, Choices(input), at + 1, strike);
          next == a.stop && Mirrors(w.(hp := a.hp))
        else
          next == at + 1 && Mirrors(w)
    {
      if AnyOther(player.currentRoom.characters, player) {
        forall c | c in player.currentRoom.characters
          ensures c in Roster()
        {
          InCast(w, w.at, c);
        }
        next := AttackCharacter(input, at + 1, strike, w.hp);
      } else {
        next := at + 1;
      }
    }

    /**
     * The switch of GameLoop on one command line: a direction moves the player, "5" runs the
     * attack branch, "6" quits, anything else does nothing. It is module Rules' Turn.
     */
    method Dispatch(input: seq<string>, at: nat, strike: (Character, int) -> int, ghost w: World) returns (next: nat, quit: bool)
      requires Mirrors(w) && Population(w) == Cast() && at < |input|
      modifies player`currentRoom, placeRoom.Values`characters, this`here, Roster()`hp
      ensures var t := Turn(w, player, input, at, strike);
        next == t.stop && quit == t.quit && Mirrors(t.world)
    {
      quit := false;
      match ParseCommand(input[at]) {
        case Go(d) =>
          Walk(d, w);
          next := at + 1;
        case Fight =>
          if AnyOther(InRoom(w.occupants, w.at), player) {
            FightEntersSubLoop(w, player, input, at, strike);
          }
          next := AttackBranch(input, at, strike, w);
        case Quit =>
          quit := true;
          next := at + 1;
        case Unknown =>
          next := at + 1;
      }
    }

    /**
     * GameLoop: write the menu, read a line and act on it, until "6" quits or the input runs
     * out. It does to the objects what module Rules' Play does to the mirrored world, and a
     * room outside the built ones (outside) keeps its occupant list.
     */
    method GameLoop(input: seq<string>, strike: (Character, int) -> int, ghost w: World, ghost outside: Room?)
      returns (quit: bool)
      requires Mirrors(w) && Population(w) == Cast() && outside !in placeRoom.Values
      modifies player`currentRoom, placeRoom.Values`characters, this`here, Roster()`hp
      ensures var o := Play(w, player, input, 0, strike); quit == o.quit && Mirrors(o.world)
      ensures outside != null ==> outside.characters == old(outside.characters)
    {
      ghost var cur := w;
      ghost var goal := Play(w, player, input, 0, strike);
      var next := 0;
      quit := false;
      while next < |input|
        invariant next <= |input|
        invariant Mirrors(cur) && Population(cur) == Cast()
        invariant Play(cur, player, input, next, strike) == goal
        decreases |input| - next
      {
        var menu := Actions();
        ghost var turn := Turn(cur, player, input, next, strike);
        TurnKeepsPopulation(cur, player, input, next, strike);
        next, quit := Dispatch(input, next, strike, cur);
        cur := turn.world;
        if quit {
          return;
        }
      }
    }

    /**
     * SetupGame's _player.Move(startingRoom), into the entrance of rooms SetupRooms has just
     * built, none of which the player was in: the player becomes the one occupant of the world.
     */
    method Enter(startingRoom: Room, ghost hp: map<Character, int>)
      requires Built() && startingRoom == placeRoom[Entrance]
      requires forall p: Place :: placeRoom[p].characters == [] && placeRoom[p] != player.currentRoom
      requires forall c :: c in Roster() ==> HpOf(hp, c) == c.hp
      modifies player`currentRoom, {player.currentRoom}`characters, startingRoom`characters, this`here
      ensures Mirrors(World(Entrance, Arrival(player), hp))
      ensures old(player.currentRoom) != null ==>
        old(player.currentRoom).characters == RemoveFirst(old(player.currentRoom.characters), player)
    {
      LaidDistinct(placeRoom, rooms);
      player.MoveTo(startingRoom);
      here := Entrance;
      Arrived(hp);
    }

    /** The state Enter leaves is the one Arrival describes. */
    lemma Arrived(hp: map<Character, int>)
      requires Built() && here == Entrance && player.currentRoom == placeRoom[Entrance]
      requires placeRoom[Entrance].characters == [player]
      requires forall p: Place :: p != Entrance ==> placeRoom[p].characters == []
      requires forall c :: c in Roster() ==> HpOf(hp, c) == c.hp
      ensures Mirrors(World(Entrance, Arrival(player), hp))
    {
    }

    /**
     * The part of SetupGame before the game loop: build the rooms, move the player into the
     * entrance and place the monsters. The room the player was in before is left behind,
     * with the player taken out of it.
     */
    method Prepare(goblinIndex: nat, koboldIndex: nat) returns (ghost start: World)
      requires goblinIndex < |Placement| && koboldIndex < |Placement|
      modifies this`rooms, this`placeRoom, this`here, player`currentRoom, {player.currentRoom}`characters
      ensures start == Start(player, goblin, kobold, drake, old(Hp()), goblinIndex, koboldIndex)
      ensures Mirrors(start) && Population(start) == Cast()
      ensures forall p: Place :: fresh(placeRoom[p])
      ensures old(player.currentRoom) !in placeRoom.Values
      ensures old(player.currentRoom) != null ==>
        old(player.currentRoom).characters == RemoveFirst(old(player.currentRoom.characters), player)
    {
      ghost var hp := Hp();
      var startingRoom := SetupRooms();
      Enter(startingRoom, hp);
      ghost var arrived := World(Entrance, Arrival(player), hp);
      LoadMonsters(goblinIndex, koboldIndex, arrived);
      start := Start(player, goblin, kobold, drake, hp, goblinIndex, koboldIndex);
      StartPopulation(player, goblin, kobold, drake, hp, goblinIndex, koboldIndex);
    }

    /**
     * SetupGame with the two room draws given: build the rooms, move the player into the
     * entrance, place the monsters, and run the game loop from there.
     */
    method SetupGame(goblinIndex: nat, koboldIndex: nat, input: seq<string>, strike: (Character, int) -> int)
      returns (quit: bool)
      requires goblinIndex < |Placement| && koboldIndex < |Placement|
      modifies this`rooms, this`placeRoom, this`here, player`currentRoom, {player.currentRoom}`characters, Roster()`hp
      ensures var o := Play(Start(player, goblin, kobold, drake, old(Hp()), goblinIndex, koboldIndex), player, input, 0, strike);
        quit == o.quit && Mirrors(o.world)
      ensures old(player.currentRoom) != null ==>
        old(player.currentRoom).characters == RemoveFirst(old(player.currentRoom.characters), player)
    {
      ghost var left := player.currentRoom;
      ghost var start := Prepare(goblinIndex, koboldIndex);
      quit := GameLoop(input, strike, start, left);
    }
  }

  /** FindAll(c => c != player && c.HP != 0) on the objects themselves. */
  function Standing(cs: seq<Character>, player: Character): (targets: seq<Character>)
    reads (set i | 0 <= i < |cs| :: cs[i])`hp
    decreases |cs|
  {
    if cs == [] then []
    else if cs[0] != player && cs[0].hp != 0 then [cs[0]] + Standing(cs[1..], player)
    else Standing(cs[1..], player)
  }

  lemma {:induction false} StandingIsLive(cs: seq<Character>, player: Character, hp: map<Character, int>)
    requires forall c :: c in cs ==> HpOf(hp, c) == c.hp
    ensures Standing(cs, player) == Live(cs, player, hp)
  {
    if cs != [] {
      StandingIsLive(cs[1..], player, hp);
    }
  }

  /**
   * The rooms as SetupRooms lays them out: a room for every place, named by its factory
   * label, with exactly the exits of the exit table, and the placement rooms listed in order.
   * Rooms of different places are different objects, since their names differ (LaidDistinct).
   */
  ghost predicate Laid(m: map<Place, Room>, rooms: seq<Room>)
    reads m.Values`north, m.Values`south, m.Values`east, m.Values`west
  {
    (forall p: Place :: p in m) &&
    (forall p: Place {:trigger m[p].name} :: m[p].name == Name(p)) &&
    (forall p: Place, d: Direction {:trigger m[p].Exit(d)} ::
       m[p].Exit(d) == if Plan(p, d).Some? then m[Plan(p, d).value] else null) &&
    |rooms| == |Placement| &&
    (forall i :: 0 <= i < |rooms| ==> rooms[i] == m[Placement[i]])
  }

  lemma LaidDistinct(m: map<Place, Room>, rooms: seq<Room>)
    requires Laid(m, rooms)
    ensures forall p: Place, q: Place :: p != q ==> m[p] != m[q]
  {
    forall p: Place, q: Place | p != q
      ensures m[p] != m[q]
    {
      assert m[p].name == Name(p) && m[q].name == Name(q);
      NamesIdentifyPlaces(p);
      NamesIdentifyPlaces(q);
    }
  }

  /** The eight rooms SetupRooms creates and links satisfy Laid, and none has an occupant yet. */
  lemma LaidOut(m: map<Place, Room>, rooms: seq<Room>, entrance: Room, treasureRoom: Room, dungeonRoom: Room, library: Room, armory: Room, garden: Room, shop: Room, bedChamber: Room)
    requires m == map[Entrance := entrance, Treasure := treasureRoom, Dungeon := dungeonRoom,
                      Library := library, Armory := armory, Garden := garden, Shop := shop,
                      BedChamber := bedChamber]
    requires rooms == [entrance, treasureRoom, dungeonRoom, library, armory, garden]
    requires entrance.north == treasureRoom && entrance.south == null && entrance.east == garden && entrance.west == library
    requires treasureRoom.north == null && treasureRoom.south == entrance && treasureRoom.east == null && treasureRoom.west == dungeonRoom
    requires dungeonRoom.north == null && dungeonRoom.south == null && dungeonRoom.east == treasureRoom && dungeonRoom.west == null
    requires library.north == null && library.south == armory && library.east == entrance && library.west == null
    requires armory.north == library && armory.south == null && armory.east == null && armory.west == null
    requires garden.north == null && garden.south == bedChamber && garden.east == shop && garden.west == entrance
    requires shop.north == null && shop.south == null && shop.east == null && shop.west == garden
    requires bedChamber.north == garden && bedChamber.south == null && bedChamber.east == null && bedChamber.west == null
    requires entrance.name == "entrance" && treasureRoom.name == "treasure" && dungeonRoom.name == "dungeon" && library.name == "library"
    requires armory.name == "armory" && garden.name == "garden" && shop.name == "shop" && bedChamber.name == "bedchamber"
    requires entrance.characters == [] && treasureRoom.characters == [] && dungeonRoom.characters == [] && library.characters == []
    requires armory.characters == [] && garden.characters == [] && shop.characters == [] && bedChamber.characters == []
    ensures Laid(m, rooms)
    ensures forall p: Place :: m[p].characters == []
    ensures forall p: Place :: m[p] in {entrance, treasureRoom, dungeonRoom, library, armory, garden, shop, bedChamber}
  {
    forall p: Place
      ensures p in m && m[p].name == Name(p) && m[p].characters == []
      ensures m[p] in {entrance, treasureRoom, dungeonRoom, library, armory, garden, shop, bedChamber}
    {
      match p
      case Entrance =>
      case Treasure =>
      case Dungeon =>
      case Library =>
      case Armory =>
      case Garden =>
      case Shop =>
      case BedChamber =>
    }
    LaidExits(m);
  }

  /** Exit facts stated room by room, gathered into the quantified form Laid uses. */
  lemma LaidExits(m: map<Place, Room>)
    requires forall p: Place :: p in m
    requires m[Entrance].north == m[Treasure] && m[Entrance].south == null && m[Entrance].east == m[Garden] && m[Entrance].west == m[Library]
    requires m[Treasure].north == null && m[Treasure].south == m[Entrance] && m[Treasure].east == null && m[Treasure].west == m[Dungeon]
    requires m[Dungeon].north == null && m[Dungeon].south == null && m[Dungeon].east == m[Treasure] && m[Dungeon].west == null
    requires m[Library].north == null && m[Library].south == m[Armory] && m[Library].east == m[Entrance] && m[Library].west == null
    requires m[Armory].north == m[Library] && m[Armory].south == null && m[Armory].east == null && m[Armory].west == null
    requires m[Garden].north == null && m[Garden].south == m[BedChamber] && m[Garden].east == m[Shop] && m[Garden].west == m[Entrance]
    requires m[Shop].north == null && m[Shop].south == null && m[Shop].east == null && m[Shop].west == m[Garden]
    requires m[BedChamber].north == m[Garden] && m[BedChamber].south == null && m[BedChamber].east == null && m[BedChamber].west == null
    ensures forall p: Place, d: Direction ::
      m[p].Exit(d) == if Plan(p, d).Some? then m[Plan(p, d).value] else null
  {
    forall p: Place, d: Direction
      ensures m[p].Exit(d) == if Plan(p, d).Some? then m[Plan(p, d).value] else null
    {
      match p
      case Entrance => match d { case North => case South => case East => case West => }
      case Treasure => match d { case North => case South => case East => case West => }
      case Dungeon => match d { case North => case South => case East => case West => }
      case Library => match d { case North => case South => case East => case West => }
      case Armory => match d { case North => case South => case East => case West => }
      case Garden => match d { case North => case South => case East => case West => }
      case Shop => match d { case North => case South => case East => case West => }
      case BedChamber => match d { case North => case South => case East => case West => }
    }
  }
}
