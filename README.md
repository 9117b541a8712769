# GameEngine of the dungeon crawl, modelled in Dafny

The model covers the engine of a small console dungeon crawl. `SetupRooms` builds eight rooms and
links them by compass exits. `SetupGame` moves the player into the entrance. `LoadMonsters`
places the goblin in one randomly drawn room, then the kobold and the drake together in a second
drawn room. The second draw is independent, so it may be the goblin's room.
`GameLoop` then runs the menu:

- "1".."4" move the player;
- "5" runs `AttackCharacter`, which lists the live targets and strikes, leaves or re-prompts;
- "6" exits.

The project has three layers.

- **Values** (`Layout`, `Input`, `Rules`): the exit table, the placement list, the command
  switch, Convert.ToInt32 on a line, the target filter, the selection arithmetic, one turn
  (`Rules.Turn`), the whole loop over a script of input lines (`Rules.Play`) and monster
  placement (`Rules.Populate`). All of them are functions on a `World`. A `World` is the
  player's place, every room's ordered occupant list, and a snapshot of everyone's HP.
- **Objects** (`Dungeon`): `Room` has its exit fields and its occupant list. `Character` has
  its HP and its current room. The character variants (hero, goblin, kobold and drake with
  their treasure) are a `Kind` tag. The drake is the one that flies and the kobold and the
  drake are the lootable ones.
- **The engine** (`GameEngine.Engine`): a class holding `_player`, `_goblin`, `_kobold` and
  `_drake` (constants given to the constructor, where the C# class assigns them in `SetupGame`
  and `LoadMonsters`) and `_rooms`, plus two ghost fields: `placeRoom`, the room object built
  for each place, and `here`, the place of the player's room. `SetupRooms`, `LoadMonsters`, `GameLoop` and `AttackCharacter` are methods with their loops.
  Each one is proved to leave the objects in the state that the matching `Rules` function
  computes (`Engine.Mirrors`). So everything proved about `Rules` holds of the engine, in
  particular that nobody is ever in two rooms or in none.

The console is an input script, `input: seq<string>`. The game loop and the attack sub-loop
read from it in turn, and each reports the position of the first line it did not read. The two
`random.Next(_rooms.Count)` draws are indices given by the caller. `CharacterBase.Attack` is a
`strike: (Character, int) -> int` that gives the chosen target's new HP from the target and its
old HP.

## Model

| member | source | states |
|---|---|---|
| Layout.Plan | Services/GameEngine.cs:216-236 | the exit table: the fourteen exits SetupRooms assigns, each to the room it names, and no exit anywhere else |
| Layout.PlanReciprocal | Services/GameEngine.cs:216-236 | every assigned exit is answered by the opposite exit of the room it leads to (entrance.North = treasure, treasure.South = entrance, ...) |
| Layout.PlanLeaves | Services/GameEngine.cs:216-236 | no exit leads back into the room it leaves |
| Layout.NamesIdentifyPlaces | Services/GameEngine.cs:207-214 | the eight factory labels are distinct, so a room's name identifies its place |
| Layout.PlacementSparesShopAndBedChamber | Services/GameEngine.cs:239 | the placement list has six distinct rooms and holds neither the shop nor the bedchamber |
| Input.ParseCommand | Services/GameEngine.cs:119-155 | the switch on the raw line: exactly "1".."4" are the four moves, "5" is the attack, "6" the exit, and anything else, including a line with spaces, is the default case |
| Input.Key | Services/GameEngine.cs:104-115 | the number the menu prints in front of each command |
| Input.Label | Services/GameEngine.cs:104-115 | each menu line: the command's number, a full stop and a space, then its text |
| Input.CommandKeysRoundTrip | Services/GameEngine.cs:104-154 | typing the number printed for a command selects that command, and every line that selects a command is such a number |
| Input.OnlyDigitsOneToFourMove | Services/GameEngine.cs:121-135 | a direction is chosen exactly by "1", "2", "3" or "4" |
| Input.LabelSelects | Services/GameEngine.cs:104-115 | every menu line starts with its key and ". ", and typing that key selects the command the line names |
| Input.Scan | Services/GameEngine.cs:67 | Convert.ToInt32 read character by character: white space, an optional sign, at least one digit, white space; anything else throws |
| Input.InRange | Services/GameEngine.cs:67 | the signed value, or the OverflowException when it lies outside the 32-bit range |
| Input.ParseInt32 | Services/GameEngine.cs:67 | Convert.ToInt32 on a whole line, a thrown exception being no value |
| Input.ParseChoice | Services/GameEngine.cs:64-72 | the attack choice: the parsed value, or -1 when the conversion threw and the empty catch kept the initial -1 |
| Input.Decimal | Services/GameEngine.cs:58-60 | the `{monsterId + 1}` and `{allTargets.Count+1}` interpolations: a number's decimal digits, never empty and without a leading zero |
| Input.ScanInRange | Services/GameEngine.cs:67 | a line that parses yields a 32-bit integer |
| Input.PrintedChoiceParses | Services/GameEngine.cs:58-67 | reading back a number as string interpolation prints it gives that number |
| Input.NegativeChoiceParses | Services/GameEngine.cs:67 | a minus sign followed by a number's digits parses to the negative number, down to the 32-bit minimum |
| Input.OverflowIsNoChoice | Services/GameEngine.cs:64-72 | a number above the 32-bit maximum throws, so the choice stays -1 |
| Input.NegativeOverflowIsNoChoice | Services/GameEngine.cs:64-72 | a minus sign and a number below the 32-bit minimum throw, so the choice stays -1 |
| Input.NoDigitNoChoice | Services/GameEngine.cs:64-72 | a line without any digit (empty, a word, a lone sign) throws, so the choice stays -1 |
| Rules.Live | Services/GameEngine.cs:51 | FindAll(c => c != _player && c.HP != 0) on the room's list, in the list's order, never longer than the list |
| Rules.AnyLive | Services/GameEngine.cs:110 | the Any test that shows "5. Attack": somebody other than the player with HP other than 0 |
| Rules.AnyOther | Services/GameEngine.cs:137 | the Any test that lets "5" into the sub-loop: somebody other than the player, whatever the HP |
| Rules.LiveMembers | Services/GameEngine.cs:51 | a character is a target exactly when it is in the room, is not the player and has HP other than 0 |
| Rules.LiveEntry | Services/GameEngine.cs:51 | each listed target is an occupant other than the player, with HP other than 0 |
| Rules.LiveAppend | Services/GameEngine.cs:51 | the filter keeps the room's order: it distributes over any split of the occupant list |
| Rules.LiveAgrees | Services/GameEngine.cs:51 | the target list depends on the occupants' HP only |
| Rules.AnyLiveIffTargets | Services/GameEngine.cs:110 | the attack option's test holds exactly when the target list is non-empty, and then someone other than the player is present |
| Rules.ActionMenu | Services/GameEngine.cs:103-115 | the menu always offers the four moves and the exit, and offers the attack exactly when the target list is non-empty |
| Rules.Select | Services/GameEngine.cs:74-88 | with N targets, a choice in 1..N strikes entry choice-1, choice N+1 declines, and every other choice re-prompts |
| Rules.PrintedEntrySelects | Services/GameEngine.cs:56-84 | typing the number printed beside a target strikes that target, and typing the number printed beside "Dont Attack" declines |
| Rules.AttackLoop | Services/GameEngine.cs:48-95 | the sub-loop reads forward only; it stops for want of targets exactly when the target list is empty, since a decline, or input running out, leaves targets listed |
| Rules.DeclineIsLastEntry | Services/GameEngine.cs:80-84 | the sub-loop is left by declining only when the last choice read was N+1 for the targets listed then |
| Rules.OnlyTargetsStruck | Services/GameEngine.cs:74-78 | the sub-loop changes only the HP of characters that were targets when it began |
| Rules.StrikeThenContinue | Services/GameEngine.cs:74-79 | choice k in 1..N strikes the k-th target, who is a live occupant other than the player, once, and the sub-loop goes on with the targets recomputed |
| Rules.DeclineLeaves | Services/GameEngine.cs:80-84 | choice N+1 leaves at once with nothing struck |
| Rules.InvalidChoiceReprompts | Services/GameEngine.cs:85-88 | any other choice changes nothing and asks again |
| Rules.Move | Services/GameEngine.cs:158-162 | a move follows the exit table: the player leaves the old room's list and joins the end of the new one; with no exit nothing changes |
| Rules.MoveKeepsPopulation | Services/GameEngine.cs:161 | a move relocates the player and nobody else |
| Rules.MoveBack | Services/GameEngine.cs:216-236 | after any move along an exit, moving the opposite way returns the player to the room left |
| Rules.Turn | Services/GameEngine.cs:119-163 | "6" and only "6" quits; the player's room changes only on "1".."4" and then by a move; only "5" changes HP or reads further lines |
| Rules.FightWithoutLiveTargets | Services/GameEngine.cs:90-93 | "5" with only dead company, or with nobody, strikes nothing and returns to the menu |
| Rules.FightEntersSubLoop | Services/GameEngine.cs:136-139 | "5" with anybody else in the room enters the sub-loop, even when the option was not shown |
| Rules.TurnKeepsPopulation | Services/GameEngine.cs:119-163 | no turn adds or removes anybody |
| Rules.Play | Services/GameEngine.cs:98-165 | a quit stops right after the "6" read as a command, and a loop that does not quit has read every line |
| Rules.PlayKeepsPopulation | Services/GameEngine.cs:98-165 | the whole game loop never adds or removes anybody |
| Rules.UnknownLineSkipped | Services/GameEngine.cs:152-154 | a line other than "1".."6" is skipped with the world unchanged |
| Rules.QuitEndsGame | Services/GameEngine.cs:147-151 | "6" ends the game at once, in the world as it stands |
| Rules.Arrival | Services/GameEngine.cs:188-192 | after the player's Move(startingRoom) into freshly built rooms, the player is the only occupant, in the entrance |
| Rules.ArrivalPopulation | Services/GameEngine.cs:192 | that world's population is the player alone |
| Rules.Join | Services/GameEngine.cs:173 | AddCharacter appends to one room's list and leaves every other room's list alone |
| Rules.Populate | Services/GameEngine.cs:167-184 | placement only appends, and only to the two drawn rooms |
| Rules.PopulateRoom | Services/GameEngine.cs:172-181 | each drawn room gains its newcomers at the end, in order: the goblin, then the kobold and the drake |
| Rules.PopulatePlaces | Services/GameEngine.cs:172-181 | the goblin is in the first drawn room, the kobold and the drake end the second room's list, one after the other, and the shop and bedchamber receive nobody |
| Rules.PopulateAddsMonsters | Services/GameEngine.cs:167-184 | placement adds the three monsters, each once, and nobody else |
| Rules.Start | Services/GameEngine.cs:186-196 | the world the game loop starts from has the player in the entrance |
| Rules.StartPopulation | Services/GameEngine.cs:186-196 | the starting world holds exactly the player, the goblin, the kobold and the drake |
| Rules.EveryoneInOnePlace | Services/GameEngine.cs:186-200 | whatever is read, the occupant lists together hold exactly the multiset of the four characters, so when they are four different characters each is in exactly one room, once |
| Dungeon.Kind.CanFly | Models/Characters/Drake.cs:5 | IFlyable: only the drake flies |
| Dungeon.Kind.IsLootable | Models/Characters/Kobold.cs:5-7 | ILootable with its Treasure: the kobold and the drake |
| Dungeon.RemoveFirst | Services/GameEngine.cs:161 | assumed, as List.Remove: leaving a room takes out one occurrence of the character and nobody else; a character not in the list leaves it as it is |
| Dungeon.RemoveFirstCutsFirst | Services/GameEngine.cs:161 | the occurrence taken out is the first one, and everything before and after it stays in order |
| Dungeon.Room.AddCharacter | Services/GameEngine.cs:173 | assumed, since the room class is not part of this model: the character is appended to the occupant list |
| Dungeon.Room.RemoveCharacter | Services/GameEngine.cs:161 | assumed, as List.Remove: the first occurrence of the character leaves the occupant list |
| Dungeon.Character.Attack | Services/GameEngine.cs:77 | the target's HP becomes strike of the target and its old HP, and nothing else changes |
| Dungeon.Character.Move | Services/GameEngine.cs:161 | the player steps through the current room's exit: the player leaves that room's list, joins the next room's list and makes it the current room; with no exit nothing changes |
| Dungeon.Character.MoveTo | Services/GameEngine.cs:192 | the player leaves the current room, if any, and joins the end of the given room's list |
| GameEngine.Engine.constructor | Services/GameEngine.cs:16-21 | the engine holds the context's player, goblin, kobold and drake, and no rooms yet |
| GameEngine.Engine.LinkRooms | Services/GameEngine.cs:216-236 | the fourteen assignments leave exactly the assigned exits set and every other exit null |
| GameEngine.Engine.SetupRooms | Services/GameEngine.cs:203-242 | eight fresh, empty rooms laid out as the exit table says; _rooms holds the six placement rooms in order; the entrance is returned |
| GameEngine.LaidOut | Services/GameEngine.cs:207-239 | the rooms created and linked by SetupRooms satisfy the layout: one distinct room per place, named by its label, with the table's exits |
| GameEngine.LaidDistinct | Services/GameEngine.cs:207-214 | rooms of different places are different objects |
| GameEngine.Engine.Enter | Services/GameEngine.cs:192 | moving the player into the entrance of the new rooms leaves the objects in the state Arrival describes, and the room the player was in before, if any, keeps its list with the player taken out |
| GameEngine.Engine.Admit | Services/GameEngine.cs:173-181 | one AddCharacter on a drawn room is Join on the mirrored world |
| GameEngine.Engine.LoadMonsters | Services/GameEngine.cs:167-184 | the rooms end up as Populate says for the two draws |
| GameEngine.Standing | Services/GameEngine.cs:51 | the same FindAll evaluated on the character objects' own HP |
| GameEngine.StandingIsLive | Services/GameEngine.cs:51 | FindAll on the room objects gives the target list of the mirrored world |
| GameEngine.Engine.Actions | Services/GameEngine.cs:103-115 | the options the game loop writes: the four moves, the attack only when Standing is non-empty, then the exit |
| GameEngine.Engine.ActionsMirror | Services/GameEngine.cs:103-115 | the options the engine lists are the mirrored world's ActionMenu |
| GameEngine.Engine.Hit | Services/GameEngine.cs:77 | one strike changes the HP snapshot at the target alone |
| GameEngine.Engine.Round | Services/GameEngine.cs:51-94 | one pass of the sub-loop: with no targets listed it stops where it is, otherwise it acts on the next choice exactly as AttackLoop takes its next step |
| GameEngine.Engine.Choose | Services/GameEngine.cs:64-88 | one read choice strikes and continues, declines and stops, or re-prompts, exactly as AttackLoop takes its next step |
| GameEngine.Engine.AttackCharacter | Services/GameEngine.cs:40-96 | the sub-loop's HP changes and its stopping position are those of AttackLoop on the room's occupants |
| GameEngine.Engine.AttackBranch | Services/GameEngine.cs:136-146 | with anybody else in the room the sub-loop runs on the following lines; otherwise nothing changes |
| GameEngine.Engine.Walk | Services/GameEngine.cs:158-162 | the player's Move(direction) is Rules.Move on the mirrored world |
| GameEngine.Engine.Dispatch | Services/GameEngine.cs:119-163 | one pass of the switch leaves the objects as Turn says, with Turn's stopping position and quit flag |
| GameEngine.Engine.GameLoop | Services/GameEngine.cs:98-165 | the objects end as Play says, the loop quits exactly when Play does, and a room outside the built ones keeps its list |
| GameEngine.Engine.Prepare | Services/GameEngine.cs:186-196 | SetupGame up to the game loop: the objects mirror Start, the eight rooms are new, and the room the player was in before keeps its list with the player taken out |
| GameEngine.Engine.SetupGame | Services/GameEngine.cs:186-201 | build, enter, place, then play: the objects end as Play from the starting world says, so EveryoneInOnePlace holds of them, and the room the player was in before keeps its list with the player taken out |

## Left out

- Console output is not modelled: the map display, the "You can attack:" listing, the messages,
  Clear and Display. The menu that each pass writes is the value `Actions()` and is proved equal
  to `Rules.ActionMenu`.
- GameEngine.Engine.GameLoop: its contract states the final state and the quit flag only. It
  does not record the sequence of menus written along the way; `ActionsMirror` states what each
  one is.
- `Console.ReadLine` is a script of lines. When the script runs out, both loops stop. At end of
  input the real ReadLine returns null; the loops' behaviour then is not modelled.
- `Environment.Exit(0)` is a quit flag that ends the loop. `Thread.Sleep(1000)` is left out
  because it is timing only.
- `Run` and `MenuManager.ShowMainMenu` are left out: they only decide whether `SetupGame` runs.
- `System.Random` is left out: its two draws are indices below six, given by the caller.
- The context's `OfType<T>().FirstOrDefault()` lookups and `IRoomFactory.CreateRoom` are left
  out. The four characters are given to the constructor, each of its own kind, and the rooms
  are created directly with their labels. A missing character (the null that FirstOrDefault
  would give) is not modelled.
- `_player`, `_goblin`, `_kobold` and `_drake` are constants fixed by the constructor. The C#
  class assigns them in `SetupGame` and `LoadMonsters`; the model does not capture the fields
  being unset before that point. `_context`, `_roomFactory`, `_menuManager`, `_mapManager` and
  `_outputManager` are not fields of the model, since it leaves out what they are used for.
- The room class is not part of this model. Room.AddCharacter is assumed to append to the
  occupant list, and Room.RemoveCharacter is assumed to drop the first occurrence, as
  List.Remove does. The source only calls these two methods.
- CharacterBase is not part of this model. `Attack` is a given strike function on the target's
  HP, with no damage rule or clamping. `Move(direction)` is assumed to be one step along the
  current room's exit. `Move(room)` is assumed to leave the current room and enter the given one.
- Drake.Fly only writes text, and UniqueBehavior only throws NotImplementedException; both are
  left out. The kinds keep the drake's ability to fly and the treasure of the kobold and the
  drake.
- Convert.ToInt32 is modelled for the invariant culture's signs. Culture-specific signs and
  the trailing NUL characters .NET also accepts are not modelled.
- The engine's helper methods are named parts of the source's methods, not separate source
  operations:
  - `Walk`: the move in GameLoop;
  - `Dispatch`, `AttackBranch`: the switch in GameLoop;
  - `Round`, `Choose`, `Hit`: one pass of AttackCharacter's loop;
  - `Admit`: one AddCharacter call;
  - `Enter`: SetupGame's move into the entrance;
  - `Prepare`: SetupGame before the game loop;
  - `LinkRooms`: SetupRooms' exit assignments.
