/**
 * The two kinds of object GameEngine works on: rooms, whose exits SetupRooms assigns and
 * whose ordered occupant lists change as characters arrive and leave, and characters,
 * whose HP an attack changes and whose current room a move changes.
 *
 * CharacterBase and the room class are not part of this model; the bodies of
 * Room.AddCharacter, Room.RemoveCharacter, Character.Attack, Character.Move and
 * Character.MoveTo are the assumed behaviour of those hidden members, each stated by its
 * contract.
 */
module Dungeon {
  import opened Layout

  /** The character variants and the capability traits each one carries. */
  datatype Kind = Hero | Goblin | Kobold(treasure: string) | Drake(treasure: string)
  {
    /** IFlyable: only the drake. */
    predicate CanFly() { Drake? }

    /** ILootable: the kobold and the drake, each with its treasure. */
    predicate IsLootable() { Kobold? || Drake? }
  }

  /** List.Remove: drops the first occurrence of c, keeping the order of the rest. */
  function RemoveFirst(s: seq<Character>, c: Character): (r: seq<Character>)
    ensures c in s ==> |r| == |s| - 1 && multiset(r) == multiset(s) - multiset{c}
    ensures c !in s ==> r == s
    ensures forall x :: x in r ==> x in s
  {
    if s == [] then []
    else if s[0] == c then (assert s == [s[0]] + s[1..]; s[1..])
    else (assert s == [s[0]] + s[1..]; [s[0]] + RemoveFirst(s[1..], c))
  }

  /** Where c first occurs, RemoveFirst cuts it out and keeps everything before and after it in order. */
  lemma {:induction false} RemoveFirstCutsFirst(s: seq<Character>, c: Character, i: nat)
    requires i < |s| && s[i] == c && c !in s[..i]
    ensures RemoveFirst(s, c) == s[..i] + s[i + 1..]
  {
    if i == 0 {
      assert s[..0] == [];
    } else {
      assert s[..i][0] == s[0];
      assert s[1..][..i - 1] == s[1..i];
      assert forall x :: x in s[1..i] ==> x in s[..i];
      RemoveFirstCutsFirst(s[1..], c, i - 1);
      CutBehindHead(s, i - 1, RemoveFirst(s[1..], c));
    }
  }

  /** Cutting position j out of a list's tail is cutting position j + 1 out of the list. */
  lemma CutBehindHead(s: seq<Character>, j: nat, rest: seq<Character>)
    requires 0 < |s| && j < |s| - 1 && rest == s[1..][..j] + s[1..][j + 1..]
    ensures [s[0]] + rest == s[..j + 1] + s[j + 2..]
  {
    assert s[..j + 1] == [s[0]] + s[1..][..j];
    assert s[j + 2..] == s[1..][j + 1..];
  }

  class Room {
    /** The label the room factory was given. */
    const name: string
    var north: Room?
    var south: Room?
    var east: Room?
    var west: Room?
    /** The occupants in the order they arrived; the dead stay. */
    var characters: seq<Character>

    /** The factory's fresh room: no exits and nobody inside. */
    constructor (name: string)
      ensures this.name == name && characters == []
      ensures north == null && south == null && east == null && west == null
    {
      this.name := name;
      north, south, east, west := null, null, null, null;
      characters := [];
    }

    /** The neighbour in direction d; null means there is no exit that way. */
    function Exit(d: Direction): Room?
      reads this`north, this`south, this`east, this`west
    {
      match d
      case North => north
      case South => south
      case East => east
      case West => west
    }

    method AddCharacter(c: Character)
      modifies this`characters
      ensures characters == old(characters) + [c]
    {
      characters := characters + [c];
    }

    method RemoveCharacter(c: Character)
      modifies this`characters
      ensures characters == RemoveFirst(old(characters), c)
    {
      characters := RemoveFirst(characters, c);
    }
  }

  class Character {
    const name: string
    const kind: Kind
    const level: int
    var hp: int
    var currentRoom: Room?

    constructor (name: string, kind: Kind, level: int, hp: int, startingRoom: Room?)
      ensures this.name == name && this.kind == kind && this.level == level
      ensures this.hp == hp && currentRoom == startingRoom
    {
      this.name, this.kind, this.level := name, kind, level;
      this.hp, currentRoom := hp, startingRoom;
    }

    /**
     * One hit on target. The damage rule is not part of this model: strike gives the
     * target's new HP from the target and its old HP, and nothing but the target's HP changes.
     */
    method Attack(target: Character, strike: (Character, int) -> int)
      modifies target`hp
      ensures target.hp == strike(target, old(target.hp))
    {
      target.hp := strike(target, target.hp);
    }

    /**
     * Move(direction), assumed to be one step along the current room's exit: leave the
     * current room's list, join the neighbour's and make it the current room; with no exit
     * that way nothing changes.
     */
    method Move(d: Direction)
      requires currentRoom != null
      modifies this`currentRoom, currentRoom`characters, {currentRoom.Exit(d)}`characters
      ensures var src, dst := old(currentRoom), old(currentRoom.Exit(d));
        if dst == null then
          currentRoom == src && src.characters == old(src.characters)
        else
          currentRoom == dst &&
          (src != dst ==> src.characters == RemoveFirst(old(src.characters), this) &&
                          dst.characters == old(dst.characters) + [this]) &&
          (src == dst ==> src.characters == RemoveFirst(old(src.characters), this) + [this])
    {
      var src := currentRoom;
      var dst := src.Exit(d);
      if dst != null {
        src.RemoveCharacter(this);
        dst.AddCharacter(this);
        currentRoom := dst;
      }
    }

    /** Move(room), assumed to leave the current room, if any, and enter the given one. */
    method MoveTo(room: Room)
      modifies this`currentRoom, {currentRoom}`characters, room`characters
      ensures currentRoom == room
      ensures old(currentRoom) != null && old(currentRoom) != room ==>
        old(currentRoom).characters == RemoveFirst(old(currentRoom.characters), this) &&
        room.characters == old(room.characters) + [this]
      ensures old(currentRoom) == room ==> room.characters == RemoveFirst(old(room.characters), this) + [this]
      ensures old(currentRoom) == null ==> room.characters == old(room.characters) + [this]
    {
      if currentRoom != null {
        currentRoom.RemoveCharacter(this);
      }
      room.AddCharacter(this);
      currentRoom := room;
    }
  }
}
