/**
 * The fixed world that GameEngine.SetupRooms builds: eight rooms, the compass exits
 * between them, and the list of six rooms that monsters may be placed in.
 * The rooms themselves are objects (module Dungeon); this module names them by Place,
 * the factory label each room was created with, and gives the exit table as a value.
 */
module Layout {
  import opened Wrappers

  datatype Direction = North | South | East | West

  /** The direction that leads back. */
  function Opposite(d: Direction): (r: Direction)
    ensures r != d
  {
    match d
    case North => South
    case South => North
    case East => West
    case West => East
  }

  datatype Place = Entrance | Treasure | Dungeon | Library | Armory | Garden | Shop | BedChamber

  /** Every place, each once. */
  const AllPlaces: seq<Place> := [Entrance, Treasure, Dungeon, Library, Armory, Garden, Shop, BedChamber]

  /** AllPlaces lists the whole type. */
  lemma AllPlacesComplete()
    ensures forall p: Place :: p in AllPlaces
  {
    forall p: Place
      ensures p in AllPlaces
    {
      match p
      case Entrance => assert AllPlaces[0] == p;
      case Treasure => assert AllPlaces[1] == p;
      case Dungeon => assert AllPlaces[2] == p;
      case Library => assert AllPlaces[3] == p;
      case Armory => assert AllPlaces[4] == p;
      case Garden => assert AllPlaces[5] == p;
      case Shop => assert AllPlaces[6] == p;
      case BedChamber => assert AllPlaces[7] == p;
    }
  }

  lemma AllPlacesDistinct()
    ensures forall i, j :: 0 <= i < j < |AllPlaces| ==> AllPlaces[i] != AllPlaces[j]
  {
  }

  /** The label handed to the room factory for each place. */
  function Name(p: Place): string
  {
    match p
    case Entrance => "entrance"
    case Treasure => "treasure"
    case Dungeon => "dungeon"
    case Library => "library"
    case Armory => "armory"
    case Garden => "garden"
    case Shop => "shop"
    case BedChamber => "bedchamber"
  }

  /** Reads a factory label back; the labels are distinct, so a room's name identifies its place. */
  function PlaceNamed(name: string): (r: Option<Place>)
    ensures r.Some? ==> Name(r.value) == name
  {
    if name == "entrance" then Some(Entrance)
    else if name == "treasure" then Some(Treasure)
    else if name == "dungeon" then Some(Dungeon)
    else if name == "library" then Some(Library)
    else if name == "armory" then Some(Armory)
    else if name == "garden" then Some(Garden)
    else if name == "shop" then Some(Shop)
    else if name == "bedchamber" then Some(BedChamber)
    else None
  }

  lemma NamesIdentifyPlaces(p: Place)
    ensures PlaceNamed(Name(p)) == Some(p)
  {
  }

  /** The exit table: exactly the fourteen links SetupRooms assigns; every other exit stays null. */
  function Plan(p: Place, d: Direction): Option<Place>
  {
    match (p, d)
    case (Entrance, North) => Some(Treasure)
    case (Entrance, West) => Some(Library)
    case (Entrance, East) => Some(Garden)
    case (Treasure, South) => Some(Entrance)
    case (Treasure, West) => Some(Dungeon)
    case (Dungeon, East) => Some(Treasure)
    case (Library, East) => Some(Entrance)
    case (Library, South) => Some(Armory)
    case (Armory, North) => Some(Library)
    case (Garden, West) => Some(Entrance)
    case (Garden, East) => Some(Shop)
    case (Garden, South) => Some(BedChamber)
    case (Shop, West) => Some(Garden)
    case (BedChamber, North) => Some(Garden)
    case _ => None
  }

  /** No exit leads back into the room it leaves. */
  lemma PlanLeaves(p: Place, d: Direction)
    requires Plan(p, d).Some?
    ensures Plan(p, d).value != p
  {
  }

  /** Every assigned link is answered by the opposite link of the room it leads to. */
  lemma PlanReciprocal(p: Place, d: Direction)
    requires Plan(p, d).Some?
    ensures Plan(Plan(p, d).value, Opposite(d)) == Some(p)
  {
  }

  /** The list of rooms LoadMonsters draws from: shop and bedchamber are not in it. */
  const Placement: seq<Place> := [Entrance, Treasure, Dungeon, Library, Armory, Garden]

  lemma PlacementSparesShopAndBedChamber()
    ensures |Placement| == 6
    ensures Shop !in Placement && BedChamber !in Placement
    ensures forall i, j :: 0 <= i < j < |Placement| ==> Placement[i] != Placement[j]
  {
  }
}
