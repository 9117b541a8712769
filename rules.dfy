/**
 * The rules of GameEngine on values: the target filter and the visibility test of the
 * attack option, the selection arithmetic of the attack sub-loop, one turn of the game
 * loop, the whole loop over a script of input lines, and monster placement.
 *
 * A World records where the player is (by Place), every room's occupant list and a
 * snapshot of everyone's HP. The methods of module GameEngine are proved to change the
 * objects exactly as these functions change a World.
 */
module Rules {
  import opened Wrappers
  import opened Layout
  import opened Input
  import opened Dungeon

  // ---------------------------------------------------------------- targets

  /**
   * A character's HP in a snapshot. The engine's snapshots cover every character it
   * places in a room, so for an occupant the default is never consulted.
   */
  function HpOf(hp: map<Character, int>, c: Character): int
  {
    if c in hp then hp[c] else 0
  }

  /** The predicate of the target filter: somebody other than the player, with HP not 0. */
  predicate IsTarget(c: Character, player: Character, hp: map<Character, int>)
  {
    c != player && HpOf(hp, c) != 0
  }

  /** FindAll(IsTarget) over a room's occupant list, in the list's order. */
  function Live(occ: seq<Character>, player: Character, hp: map<Character, int>): (targets: seq<Character>)
    ensures |targets| <= |occ|
  {
    if occ == [] then []
    else if IsTarget(occ[0], player, hp) then [occ[0]] + Live(occ[1..], player, hp)
    else Live(occ[1..], player, hp)
  }

  /** The targets are exactly the occupants that pass the filter. */
  lemma {:induction false} LiveMembers(occ: seq<Character>, player: Character, hp: map<Character, int>)
    ensures forall c :: c in Live(occ, player, hp) <==> c in occ && IsTarget(c, player, hp)
  {
    if occ != [] {
      LiveMembers(occ[1..], player, hp);
      assert occ == [occ[0]] + occ[1..];
    }
  }

  /** Each listed target is an occupant other than the player, with HP other than 0. */
  lemma {:induction false} LiveEntry(occ: seq<Character>, player: Character, hp: map<Character, int>, i: nat)
    requires i < |Live(occ, player, hp)|
    ensures Live(occ, player, hp)[i] in occ && IsTarget(Live(occ, player, hp)[i], player, hp)
  {
    if IsTarget(occ[0], player, hp) {
      if i > 0 {
        LiveEntry(occ[1..], player, hp, i - 1);
      }
    } else {
      LiveEntry(occ[1..], player, hp, i);
    }
  }

  /** The filter keeps the room's order: it distributes over any split of the occupant list. */
  lemma {:induction false} LiveAppend(a: seq<Character>, b: seq<Character>, player: Character, hp: map<Character, int>)
    ensures Live(a + b, player, hp) == Live(a, player, hp) + Live(b, player, hp)
  {
    if a == [] {
      assert a + b == b;
    } else {
      assert (a + b)[0] == a[0];
      assert (a + b)[1..] == a[1..] + b;
      LiveAppend(a[1..], b, player, hp);
      if IsTarget(a[0], player, hp) {
        var x, y := Live(a[1..], player, hp), Live(b, player, hp);
        assert Live(a + b, player, hp) == [a[0]] + (x + y);
        assert [a[0]] + (x + y) == ([a[0]] + x) + y;
      }
    }
  }

  /** The filter looks at the HP of the occupants only. */
  lemma {:induction false} LiveAgrees(occ: seq<Character>, player: Character, hp1: map<Character, int>, hp2: map<Character, int>)
    requires forall c :: c in occ ==> HpOf(hp1, c) == HpOf(hp2, c)
    ensures Live(occ, player, hp1) == Live(occ, player, hp2)
  {
    if occ != [] {
      LiveAgrees(occ[1..], player, hp1, hp2);
    }
  }

  /** Any(IsTarget): the test that shows the attack option. */
  predicate AnyLive(occ: seq<Character>, player: Character, hp: map<Character, int>)
  {
    occ != [] && (IsTarget(occ[0], player, hp) || AnyLive(occ[1..], player, hp))
  }

  /** Any(c => c != player): the test that lets input "5" into the attack sub-loop. */
  predicate AnyOther(occ: seq<Character>, player: Character)
  {
    occ != [] && (occ[0] != player || AnyOther(occ[1..], player))
  }

  /** The option is shown exactly when the sub-loop would have someone to offer. */
  lemma {:induction false} AnyLiveIffTargets(occ: seq<Character>, player: Character, hp: map<Character, int>)
    ensures AnyLive(occ, player, hp) <==> Live(occ, player, hp) != []
    ensures AnyLive(occ, player, hp) ==> AnyOther(occ, player)
  {
    if occ != [] {
      AnyLiveIffTargets(occ[1..], player, hp);
    }
  }

  /**
   * The options the game loop lists under "Choose an action:", in order, each printed as
   * Label(option): the four moves, the attack when somebody there can be attacked, the exit.
   */
  function ActionMenu(occ: seq<Character>, player: Character, hp: map<Character, int>): (menu: seq<Command>)
    ensures Fight in menu <==> Live(occ, player, hp) != []
    ensures Go(North) in menu && Go(South) in menu && Go(East) in menu && Go(West) in menu && Quit in menu
    ensures forall c :: c in menu ==> !c.Unknown?
  {
    AnyLiveIffTargets(occ, player, hp);
    [Go(North), Go(South), Go(East), Go(West)]
    + (if AnyLive(occ, player, hp) then [Fight] else [])
    + [Quit]
  }

  // ---------------------------------------------------------------- the attack sub-loop

  /** What one numeric choice means when count targets are listed. */
  datatype Selection = Strike(index: nat) | Decline | Reprompt

  /**
   * ElementAtOrDefault(choice - 1) is a target exactly for an index inside the list;
   * otherwise choice - 1 == count is the "Dont Attack" entry, and anything else re-prompts.
   */
  function Select(count: nat, choice: int): (s: Selection)
    ensures s.Strike? <==> 1 <= choice <= count
    ensures s.Strike? ==> s.index < count && s.index + 1 == choice
    ensures s == Decline <==> choice == count + 1
  {
    if 0 <= choice - 1 < count then Strike(choice - 1)
    else if choice - 1 == count then Decline
    else Reprompt
  }

  /** Typing the number printed beside entry k of the list (1..N targets, N+1 decline) selects it. */
  lemma PrintedEntrySelects(count: nat, k: nat)
    requires 1 <= k <= count + 1 && count < Int32Max
    ensures Select(count, ParseChoice(Decimal(k))) == if k <= count then Strike(k - 1) else Decline
  {
    PrintedChoiceParses(k);
  }

  datatype AttackEnd = NoTargets | Declined | InputEnded

  /** The HP snapshot the sub-loop leaves, the position of the first line it did not read, and why it stopped. */
  datatype AttackResult = AttackResult(hp: map<Character, int>, stop: nat, end: AttackEnd)

  /**
   * The sub-loop of AttackCharacter, reading choices from position at: recompute the targets,
   * stop when there are none, otherwise read a choice and strike, leave, or ask again. Only
   * HP changes; the occupant list stays as it is.
   */
  function AttackLoop(occ: seq<Character>, player: Character, hp: map<Character, int>,
                      choices: seq<int>, at: nat, strike: (Character, int) -> int): (r: AttackResult)
    requires at <= |choices|
    ensures at <= r.stop <= |choices|
    ensures r.end == NoTargets ==> Live(occ, player, r.hp) == []
    ensures r.end == InputEnded ==> r.stop == |choices| && Live(occ, player, r.hp) != []
    ensures r.end == Declined ==> at < r.stop && Live(occ, player, r.hp) != []
    decreases |choices| - at
  {
    var targets := Live(occ, player, hp);
    if targets == [] then AttackResult(hp, at, NoTargets)
    else if at == |choices| then AttackResult(hp, at, InputEnded)
    else
      match Select(|targets|, choices[at])
      case Strike(k) =>
        var t := targets[k];
        AttackLoop(occ, player, hp[t := strike(t, HpOf(hp, t))], choices, at + 1, strike)
      case Decline => AttackResult(hp, at + 1, Declined)
      case Reprompt => AttackLoop(occ, player, hp, choices, at + 1, strike)
  }

  /** The sub-loop is left by a decline only when the last line read chose the entry after the targets. */
  lemma {:induction false} DeclineIsLastEntry(occ: seq<Character>, player: Character, hp: map<Character, int>,
                                             choices: seq<int>, at: nat, strike: (Character, int) -> int)
    requires at <= |choices|
    ensures var r := AttackLoop(occ, player, hp, choices, at, strike);
      r.end == Declined ==>
        choices[r.stop - 1] == |Live(occ, player, r.hp)| + 1
    decreases |choices| - at
  {
    var targets := Live(occ, player, hp);
    if targets != [] && at < |choices| {
      match Select(|targets|, choices[at])
      case Strike(k) =>
        var t := targets[k];
        DeclineIsLastEntry(occ, player, hp[t := strike(t, HpOf(hp, t))], choices, at + 1, strike);
      case Decline =>
      case Reprompt =>
        DeclineIsLastEntry(occ, player, hp, choices, at + 1, strike);
    }
  }

  /**
   * The sub-loop never strikes the player, a dead character or anyone outside the room: any HP
   * that changed belonged to a target when the sub-loop began, and no other snapshot entry appears.
   */
  lemma {:induction false} OnlyTargetsStruck(occ: seq<Character>, player: Character, hp: map<Character, int>,
                                            choices: seq<int>, at: nat, strike: (Character, int) -> int)
    requires at <= |choices|
    ensures var r := AttackLoop(occ, player, hp, choices, at, strike);
      r.hp.Keys == hp.Keys &&
      forall c :: HpOf(r.hp, c) != HpOf(hp, c) ==> c in occ && IsTarget(c, player, hp)
    decreases |choices| - at
  {
    var targets := Live(occ, player, hp);
    if targets != [] && at < |choices| {
      match Select(|targets|, choices[at])
      case Strike(k) =>
        var t := targets[k];
        LiveMembers(occ, player, hp);
        assert t in targets;
        OnlyTargetsStruck(occ, player, hp[t := strike(t, HpOf(hp, t))], choices, at + 1, strike);
      case Decline =>
      case Reprompt =>
        OnlyTargetsStruck(occ, player, hp, choices, at + 1, strike);
    }
  }

  /**
   * A choice k in 1..N strikes t, the k-th listed target, once and keeps the sub-loop going;
   * t is an occupant other than the player, with HP other than 0.
   */
  lemma StrikeThenContinue(occ: seq<Character>, player: Character, hp: map<Character, int>,
                           choices: seq<int>, at: nat, strike: (Character, int) -> int, t: Character)
    requires at < |choices| && 1 <= choices[at] <= |Live(occ, player, hp)|
    requires t == Live(occ, player, hp)[choices[at] - 1]
    ensures t in occ && IsTarget(t, player, hp)
    ensures AttackLoop(occ, player, hp, choices, at, strike)
      == AttackLoop(occ, player, hp[t := strike(t, HpOf(hp, t))], choices, at + 1, strike)
  {
    LiveEntry(occ, player, hp, choices[at] - 1);
  }

  /** Choice N+1 leaves at once, with nothing struck. */
  lemma DeclineLeaves(occ: seq<Character>, player: Character, hp: map<Character, int>,
                      choices: seq<int>, at: nat, strike: (Character, int) -> int)
    requires at < |choices| && Live(occ, player, hp) != []
    requires choices[at] == |Live(occ, player, hp)| + 1
    ensures AttackLoop(occ, player, hp, choices, at, strike) == AttackResult(hp, at + 1, Declined)
  {
  }

  /** Any other choice (0, out of range, not a number) changes nothing and asks again. */
  lemma InvalidChoiceReprompts(occ: seq<Character>, player: Character, hp: map<Character, int>,
                               choices: seq<int>, at: nat, strike: (Character, int) -> int)
    requires at < |choices| && Live(occ, player, hp) != []
    requires var k := choices[at]; k < 1 || k > |Live(occ, player, hp)| + 1
    ensures AttackLoop(occ, player, hp, choices, at, strike) == AttackLoop(occ, player, hp, choices, at + 1, strike)
  {
  }

  // ---------------------------------------------------------------- the world

  /** A room's occupant list; a place without an entry has nobody in it. */
  function InRoom(occ: map<Place, seq<Character>>, p: Place): seq<Character>
  {
    if p in occ then occ[p] else []
  }

  /** Where the player stands, who is in each room, and everyone's HP. */
  datatype World = World(at: Place, occupants: map<Place, seq<Character>>, hp: map<Character, int>)
  {
    /** The player is in the occupant list of the room the player is in. */
    predicate Valid(player: Character)
    {
      player in InRoom(occupants, at)
    }
  }

  /** Every occupant list, gathered over the given places. */
  function Gather(ps: seq<Place>, occ: map<Place, seq<Character>>): multiset<Character>
  {
    if ps == [] then multiset{} else multiset(InRoom(occ, ps[0])) + Gather(ps[1..], occ)
  }

  /** Everybody in the world, counted with multiplicity. */
  function Population(w: World): multiset<Character>
  {
    Gather(AllPlaces, w.occupants)
  }

  lemma {:induction false} GatherEmpty(ps: seq<Place>, occ: map<Place, seq<Character>>)
    requires forall p :: p in ps ==> InRoom(occ, p) == []
    ensures Gather(ps, occ) == multiset{}
  {
    if ps != [] {
      GatherEmpty(ps[1..], occ);
    }
  }

  lemma {:induction false} GatherUntouched(ps: seq<Place>, occ: map<Place, seq<Character>>, p: Place, s: seq<Character>)
    requires p !in ps
    ensures Gather(ps, occ[p := s]) == Gather(ps, occ)
  {
    if ps != [] {
      GatherUntouched(ps[1..], occ, p, s);
    }
  }

  /** Replacing one room's list changes the gathered population by exactly that list's difference. */
  lemma {:induction false} GatherUpdate(ps: seq<Place>, occ: map<Place, seq<Character>>, p: Place, s: seq<Character>)
    requires p in ps && forall i, j :: 0 <= i < j < |ps| ==> ps[i] != ps[j]
    ensures Gather(ps, occ[p := s]) + multiset(InRoom(occ, p)) == Gather(ps, occ) + multiset(s)
  {
    var occ' := occ[p := s];
    if ps[0] == p {
      assert p !in ps[1..];
      GatherUntouched(ps[1..], occ, p, s);
    } else {
      assert p in ps[1..];
      GatherUpdate(ps[1..], occ, p, s);
      var head := multiset(InRoom(occ, ps[0]));
      assert Gather(ps, occ') + multiset(InRoom(occ, p)) == head + (Gather(ps[1..], occ') + multiset(InRoom(occ, p)));
      assert Gather(ps, occ) + multiset(s) == head + (Gather(ps[1..], occ) + multiset(s));
    }
  }

  /** A world whose only occupant is c, in the room at p. */
  lemma {:induction false} GatherLone(ps: seq<Place>, occ: map<Place, seq<Character>>, p: Place, c: Character)
    requires forall q :: q in ps ==> InRoom(occ, q) == if q == p then [c] else []
    requires p in ps && forall i, j :: 0 <= i < j < |ps| ==> ps[i] != ps[j]
    ensures Gather(ps, occ) == multiset{c}
  {
    if ps[0] == p {
      assert p !in ps[1..];
      GatherEmpty(ps[1..], occ);
    } else {
      assert p in ps[1..];
      GatherLone(ps[1..], occ, p, c);
    }
  }

  /** Whoever is in the room at a listed place is counted by Gather. */
  lemma {:induction false} GatherHas(ps: seq<Place>, occ: map<Place, seq<Character>>, p: Place, c: Character)
    requires p in ps && c in InRoom(occ, p)
    ensures c in Gather(ps, occ)
  {
    if ps[0] == p {
      assert c in multiset(InRoom(occ, p));
    } else {
      GatherHas(ps[1..], occ, p, c);
    }
  }

  /** Every occupant of every room is counted in the population. */
  lemma OccupantCounted(w: World, p: Place, c: Character)
    requires c in InRoom(w.occupants, p)
    ensures c in Population(w)
  {
    AllPlacesComplete();
    GatherHas(AllPlaces, w.occupants, p, c);
  }

  /** Cancelling a common part of two sums of multisets. */
  lemma Cancel<T>(a: multiset<T>, b: multiset<T>, c: multiset<T>)
    requires a + c == b + c
    ensures a == b
  {
    forall x
      ensures a[x] == b[x]
    {
      assert (a + c)[x] == a[x] + c[x] && (b + c)[x] == b[x] + c[x];
    }
  }

  /** The population after one room's list is replaced. */
  lemma PopulationUpdate(occ: map<Place, seq<Character>>, p: Place, s: seq<Character>)
    ensures Gather(AllPlaces, occ[p := s]) + multiset(InRoom(occ, p)) == Gather(AllPlaces, occ) + multiset(s)
  {
    AllPlacesComplete();
    AllPlacesDistinct();
    GatherUpdate(AllPlaces, occ, p, s);
  }

  /** AddCharacter at the end of one room's list adds exactly the newcomers to the population. */
  lemma JoinAdds(occ: map<Place, seq<Character>>, p: Place, cs: seq<Character>)
    ensures Gather(AllPlaces, occ[p := InRoom(occ, p) + cs]) == Gather(AllPlaces, occ) + multiset(cs)
  {
    var joined := occ[p := InRoom(occ, p) + cs];
    var before := multiset(InRoom(occ, p));
    PopulationUpdate(occ, p, InRoom(occ, p) + cs);
    assert multiset(InRoom(occ, p) + cs) == before + multiset(cs);
    assert Gather(AllPlaces, joined) + before == (Gather(AllPlaces, occ) + multiset(cs)) + before;
    Cancel(Gather(AllPlaces, joined), Gather(AllPlaces, occ) + multiset(cs), before);
  }

  /** RemoveCharacter of an occupant takes exactly that one occupant out of the population. */
  lemma LeaveRemoves(occ: map<Place, seq<Character>>, p: Place, c: Character)
    requires c in InRoom(occ, p)
    ensures Gather(AllPlaces, occ[p := RemoveFirst(InRoom(occ, p), c)]) + multiset{c} == Gather(AllPlaces, occ)
  {
    var rest := RemoveFirst(InRoom(occ, p), c);
    var left := occ[p := rest];
    PopulationUpdate(occ, p, rest);
    assert multiset(InRoom(occ, p)) == multiset(rest) + multiset{c};
    assert (Gather(AllPlaces, left) + multiset{c}) + multiset(rest) == Gather(AllPlaces, occ) + multiset(rest);
    Cancel(Gather(AllPlaces, left) + multiset{c}, Gather(AllPlaces, occ), multiset(rest));
  }

  /**
   * The player's Move(direction), taken as a step along the exit table: leave the current
   * room's list, join the end of the next room's list; without an exit nothing changes.
   */
  function Move(w: World, player: Character, d: Direction): (r: World)
    requires w.Valid(player)
    ensures r.Valid(player) && r.hp == w.hp
    ensures Plan(w.at, d).None? ==> r == w
    ensures Plan(w.at, d).Some? ==> r.at == Plan(w.at, d).value && r.at != w.at
    ensures Plan(w.at, d).Some? ==>
      InRoom(r.occupants, r.at) == InRoom(w.occupants, r.at) + [player] &&
      InRoom(r.occupants, w.at) == RemoveFirst(InRoom(w.occupants, w.at), player)
    ensures forall p: Place :: p != w.at && p != r.at ==> InRoom(r.occupants, p) == InRoom(w.occupants, p)
  {
    match Plan(w.at, d)
    case None => w
    case Some(dst) =>
      PlanLeaves(w.at, d);
      var left := w.occupants[w.at := RemoveFirst(InRoom(w.occupants, w.at), player)];
      World(dst, left[dst := InRoom(left, dst) + [player]], w.hp)
  }

  /** A move relocates the player and nobody else: the population is the same. */
  lemma MoveKeepsPopulation(w: World, player: Character, d: Direction)
    requires w.Valid(player)
    ensures Population(Move(w, player, d)) == Population(w)
  {
    if Plan(w.at, d).Some? {
      var dst := Plan(w.at, d).value;
      var left := w.occupants[w.at := RemoveFirst(InRoom(w.occupants, w.at), player)];
      LeaveRemoves(w.occupants, w.at, player);
      JoinAdds(left, dst, [player]);
    }
  }

  /** Every exit can be walked back: the opposite direction returns the player to the room left. */
  lemma MoveBack(w: World, player: Character, d: Direction)
    requires w.Valid(player) && Plan(w.at, d).Some?
    ensures Move(Move(w, player, d), player, Opposite(d)).at == w.at
  {
    PlanReciprocal(w.at, d);
  }

  // ---------------------------------------------------------------- the game loop

  /** The world after one turn, the position of the first line it did not read, and whether it quit. */
  datatype TurnResult = TurnResult(world: World, stop: nat, quit: bool)

  /**
   * One pass of GameLoop's body, reading the command line at position at: a direction moves;
   * "5" runs the sub-loop, which reads further lines, when anybody else is in the room;
   * "6" quits; anything else changes nothing.
   */
  function Turn(w: World, player: Character, input: seq<string>, at: nat, strike: (Character, int) -> int): (r: TurnResult)
    requires w.Valid(player) && at < |input|
    ensures r.world.Valid(player)
    ensures at < r.stop <= |input|
    ensures r.quit <==> input[at] == "6"
    ensures r.world.at != w.at ==> ParseCommand(input[at]).Go?
    ensures !ParseCommand(input[at]).Go? ==> r.world.at == w.at && r.world.occupants == w.occupants
    ensures ParseCommand(input[at]).Go? ==> r.world == Move(w, player, ParseCommand(input[at]).direction)
    ensures !ParseCommand(input[at]).Fight? ==> r.world.hp == w.hp && r.stop == at + 1
  {
    match ParseCommand(input[at])
    case Go(d) => TurnResult(Move(w, player, d), at + 1, false)
    case Fight =>
      var here := InRoom(w.occupants, w.at);
      if AnyOther(here, player) then
        var a := AttackLoop(here, player, w.hp, Choices(input), at + 1, strike);
        TurnResult(w.(hp := a.hp), a.stop, false)
      else
        TurnResult(w, at + 1, false)
    case Quit => TurnResult(w, at + 1, true)
    case Unknown => TurnResult(w, at + 1, false)
  }

  /** "5" with only dead company (or nobody) attacks nothing and goes straight back to the menu. */
  lemma FightWithoutLiveTargets(w: World, player: Character, input: seq<string>, at: nat, strike: (Character, int) -> int)
    requires w.Valid(player) && at < |input| && input[at] == "5"
    requires !AnyLive(InRoom(w.occupants, w.at), player, w.hp)
    ensures Turn(w, player, input, at, strike) == TurnResult(w, at + 1, false)
  {
    AnyLiveIffTargets(InRoom(w.occupants, w.at), player, w.hp);
  }

  /** "5" with someone else in the room enters the sub-loop even when the option was not shown. */
  lemma FightEntersSubLoop(w: World, player: Character, input: seq<string>, at: nat, strike: (Character, int) -> int)
    requires w.Valid(player) && at < |input| && input[at] == "5"
    requires AnyOther(InRoom(w.occupants, w.at), player)
    ensures var a := AttackLoop(InRoom(w.occupants, w.at), player, w.hp, Choices(input), at + 1, strike);
      Turn(w, player, input, at, strike) == TurnResult(w.(hp := a.hp), a.stop, false)
  {
  }

  /** No turn adds or removes anybody. */
  lemma TurnKeepsPopulation(w: World, player: Character, input: seq<string>, at: nat, strike: (Character, int) -> int)
    requires w.Valid(player) && at < |input|
    ensures Population(Turn(w, player, input, at, strike).world) == Population(w)
  {
    if ParseCommand(input[at]).Go? {
      MoveKeepsPopulation(w, player, ParseCommand(input[at]).direction);
    }
  }

  /** The world the game loop ends in, the position of the first line it did not read, and whether it quit. */
  datatype Outcome = Outcome(world: World, stop: nat, quit: bool)

  /**
   * GameLoop over the input from position at: turns until "6" is read as a command or the
   * input runs out. A quit stops right after the "6" it read; otherwise every line was read.
   */
  function Play(w: World, player: Character, input: seq<string>, at: nat, strike: (Character, int) -> int): (o: Outcome)
    requires w.Valid(player) && at <= |input|
    ensures o.world.Valid(player)
    ensures at <= o.stop <= |input|
    ensures o.quit ==> at < o.stop && input[o.stop - 1] == "6"
    ensures !o.quit ==> o.stop == |input|
    decreases |input| - at
  {
    if at == |input| then Outcome(w, at, false)
    else
      var t := Turn(w, player, input, at, strike);
      if t.quit then Outcome(t.world, t.stop, true)
      else Play(t.world, player, input, t.stop, strike)
  }

  /** The game loop as a whole never adds or removes anybody. */
  lemma {:induction false} PlayKeepsPopulation(w: World, player: Character, input: seq<string>, at: nat,
                                               strike: (Character, int) -> int)
    requires w.Valid(player) && at <= |input|
    ensures Population(Play(w, player, input, at, strike).world) == Population(w)
    decreases |input| - at
  {
    if at < |input| {
      var t := Turn(w, player, input, at, strike);
      TurnKeepsPopulation(w, player, input, at, strike);
      if !t.quit {
        PlayKeepsPopulation(t.world, player, input, t.stop, strike);
      }
    }
  }

  /** A line that is not one of "1".."6" is skipped: the world is as it was. */
  lemma UnknownLineSkipped(w: World, player: Character, input: seq<string>, at: nat, strike: (Character, int) -> int)
    requires w.Valid(player) && at < |input| && ParseCommand(input[at]).Unknown?
    ensures Play(w, player, input, at, strike) == Play(w, player, input, at + 1, strike)
  {
  }

  /** "6" ends the game at once, in the world as it stands. */
  lemma QuitEndsGame(w: World, player: Character, input: seq<string>, at: nat, strike: (Character, int) -> int)
    requires w.Valid(player) && at < |input| && input[at] == "6"
    ensures Play(w, player, input, at, strike) == Outcome(w, at + 1, true)
  {
  }

  // ---------------------------------------------------------------- setup

  /** The rooms once SetupRooms has built them empty and the player's Move(startingRoom) has entered the entrance. */
  function Arrival(player: Character): (occ: map<Place, seq<Character>>)
    ensures forall p: Place :: InRoom(occ, p) == if p == Entrance then [player] else []
  {
    AllPlacesComplete();
    map p | p in AllPlaces :: if p == Entrance then [player] else []
  }

  /** After SetupGame's Move(startingRoom) the player is the only occupant of the world. */
  lemma ArrivalPopulation(player: Character)
    ensures Gather(AllPlaces, Arrival(player)) == multiset{player}
  {
    AllPlacesDistinct();
    GatherLone(AllPlaces, Arrival(player), Entrance, player);
  }

  /** AddCharacter on the room of place p: c joins the end of its occupant list. */
  function Join(occ: map<Place, seq<Character>>, p: Place, c: Character): (r: map<Place, seq<Character>>)
    ensures InRoom(r, p) == InRoom(occ, p) + [c]
    ensures forall q: Place :: q != p ==> InRoom(r, q) == InRoom(occ, q)
  {
    occ[p := InRoom(occ, p) + [c]]
  }

  /**
   * LoadMonsters with the two random draws given as indices into Placement: the goblin
   * joins the end of one drawn room's list, then the kobold and the drake join the end of
   * a second drawn room's list, one after the other.
   */
  function Populate(occ: map<Place, seq<Character>>, goblin: Character, kobold: Character, drake: Character,
                    goblinIndex: nat, koboldIndex: nat): (r: map<Place, seq<Character>>)
    requires goblinIndex < |Placement| && koboldIndex < |Placement|
    ensures forall p: Place :: InRoom(occ, p) <= InRoom(r, p)
    ensures forall p: Place :: p != Placement[goblinIndex] && p != Placement[koboldIndex] ==> InRoom(r, p) == InRoom(occ, p)
  {
    var g := Placement[goblinIndex];
    var k := Placement[koboldIndex];
    Join(Join(Join(occ, g, goblin), k, kobold), k, drake)
  }

  /** Room by room: a drawn room gains its newcomers at the end, in the order they joined. */
  lemma PopulateRoom(occ: map<Place, seq<Character>>, goblin: Character, kobold: Character, drake: Character,
                     goblinIndex: nat, koboldIndex: nat, p: Place)
    requires goblinIndex < |Placement| && koboldIndex < |Placement|
    ensures InRoom(Populate(occ, goblin, kobold, drake, goblinIndex, koboldIndex), p)
      == InRoom(occ, p) + (if p == Placement[goblinIndex] then [goblin] else [])
                        + (if p == Placement[koboldIndex] then [kobold, drake] else [])
  {
    var g, k := Placement[goblinIndex], Placement[koboldIndex];
    var first := Join(occ, g, goblin);
    var second := Join(first, k, kobold);
    assert InRoom(first, p) == InRoom(occ, p) + (if p == g then [goblin] else []);
    assert InRoom(second, p) == InRoom(first, p) + (if p == k then [kobold] else []);
    assert InRoom(Join(second, k, drake), p) == InRoom(second, p) + (if p == k then [drake] else []);
    if p == k {
      assert InRoom(first, p) + [kobold] + [drake] == InRoom(first, p) + [kobold, drake];
    }
  }

  /**
   * The goblin lands in the first drawn room, the kobold and the drake together at the end of
   * the second, and shop and bedchamber never receive anybody.
   */
  lemma PopulatePlaces(occ: map<Place, seq<Character>>, goblin: Character, kobold: Character, drake: Character,
                       goblinIndex: nat, koboldIndex: nat)
    requires goblinIndex < |Placement| && koboldIndex < |Placement|
    ensures var r := Populate(occ, goblin, kobold, drake, goblinIndex, koboldIndex);
      goblin in InRoom(r, Placement[goblinIndex]) &&
      (var lair := InRoom(r, Placement[koboldIndex]); |lair| >= 2 && lair[|lair| - 2..] == [kobold, drake]) &&
      InRoom(r, Shop) == InRoom(occ, Shop) && InRoom(r, BedChamber) == InRoom(occ, BedChamber)
  {
    PlacementSparesShopAndBedChamber();
    PopulateRoom(occ, goblin, kobold, drake, goblinIndex, koboldIndex, Placement[goblinIndex]);
    PopulateRoom(occ, goblin, kobold, drake, goblinIndex, koboldIndex, Placement[koboldIndex]);
  }

  /** Placement adds the three monsters, each once, and nobody else. */
  lemma PopulateAddsMonsters(occ: map<Place, seq<Character>>, goblin: Character, kobold: Character, drake: Character,
                             goblinIndex: nat, koboldIndex: nat)
    requires goblinIndex < |Placement| && koboldIndex < |Placement|
    ensures Gather(AllPlaces, Populate(occ, goblin, kobold, drake, goblinIndex, koboldIndex))
      == Gather(AllPlaces, occ) + multiset{goblin, kobold, drake}
  {
    var g := Placement[goblinIndex];
    var k := Placement[koboldIndex];
    var first := Join(occ, g, goblin);
    var second := Join(first, k, kobold);
    JoinAddsOne(occ, g, goblin);
    JoinAddsOne(first, k, kobold);
    JoinAddsOne(second, k, drake);
    AddThree(Gather(AllPlaces, occ), goblin, kobold, drake);
  }

  /** One Join adds exactly its newcomer to the population. */
  lemma JoinAddsOne(occ: map<Place, seq<Character>>, p: Place, c: Character)
    ensures Gather(AllPlaces, Join(occ, p, c)) == Gather(AllPlaces, occ) + multiset{c}
  {
    JoinAdds(occ, p, [c]);
  }

  lemma AddThree<T>(m: multiset<T>, a: T, b: T, c: T)
    ensures m + multiset{a} + multiset{b} + multiset{c} == m + multiset{a, b, c}
  {
  }

  /** The world GameLoop starts from: the player in the entrance, the monsters placed. */
  function Start(player: Character, goblin: Character, kobold: Character, drake: Character,
                 hp: map<Character, int>, goblinIndex: nat, koboldIndex: nat): (w: World)
    requires goblinIndex < |Placement| && koboldIndex < |Placement|
    ensures w.Valid(player) && w.at == Entrance
  {
    var occ := Populate(Arrival(player), goblin, kobold, drake, goblinIndex, koboldIndex);
    assert [player] <= InRoom(occ, Entrance);
    World(Entrance, occ, hp)
  }

  lemma CastOfFour(m: multiset<Character>, player: Character, goblin: Character, kobold: Character, drake: Character)
    requires m == multiset{player} + multiset{goblin, kobold, drake}
    ensures m == multiset{player, goblin, kobold, drake}
  {
  }

  /** The start world holds exactly the cast. */
  lemma StartPopulation(player: Character, goblin: Character, kobold: Character, drake: Character,
                        hp: map<Character, int>, goblinIndex: nat, koboldIndex: nat)
    requires goblinIndex < |Placement| && koboldIndex < |Placement|
    ensures Population(Start(player, goblin, kobold, drake, hp, goblinIndex, koboldIndex))
      == multiset{player, goblin, kobold, drake}
  {
    var arrived := Arrival(player);
    ArrivalPopulation(player);
    PopulateAddsMonsters(arrived, goblin, kobold, drake, goblinIndex, koboldIndex);
    CastOfFour(Gather(AllPlaces, Populate(arrived, goblin, kobold, drake, goblinIndex, koboldIndex)),
               player, goblin, kobold, drake);
  }

  /**
   * Nobody is ever in two rooms or in none: from the start world, the occupant lists
   * together hold exactly the cast, each once, whatever is read.
   */
  lemma EveryoneInOnePlace(player: Character, goblin: Character, kobold: Character, drake: Character,
                           hp: map<Character, int>, goblinIndex: nat, koboldIndex: nat,
                           input: seq<string>, strike: (Character, int) -> int)
    requires goblinIndex < |Placement| && koboldIndex < |Placement|
    ensures var o := Play(Start(player, goblin, kobold, drake, hp, goblinIndex, koboldIndex), player, input, 0, strike);
      Population(o.world) == multiset{player, goblin, kobold, drake}
    ensures var o := Play(Start(player, goblin, kobold, drake, hp, goblinIndex, koboldIndex), player, input, 0, strike);
      Distinct4(player, goblin, kobold, drake) ==>
        Population(o.world)[player] == 1 && Population(o.world)[goblin] == 1 &&
        Population(o.world)[kobold] == 1 && Population(o.world)[drake] == 1
  {
    var w := Start(player, goblin, kobold, drake, hp, goblinIndex, koboldIndex);
    StartPopulation(player, goblin, kobold, drake, hp, goblinIndex, koboldIndex);
    PlayKeepsPopulation(w, player, input, 0, strike);
    if Distinct4(player, goblin, kobold, drake) {
      EachOnce(player, goblin, kobold, drake);
    }
  }

  /** Four different characters. */
  predicate Distinct4(a: Character, b: Character, c: Character, d: Character)
  {
    a != b && a != c && a != d && b != c && b != d && c != d
  }

  lemma EachOnce(a: Character, b: Character, c: Character, d: Character)
    requires Distinct4(a, b, c, d)
    ensures var m := multiset{a, b, c, d}; m[a] == 1 && m[b] == 1 && m[c] == 1 && m[d] == 1
  {
  }
}
