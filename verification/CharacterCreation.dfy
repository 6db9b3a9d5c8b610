/** The character-creation dialogue of cmd/muhan-server/login.go, step by step. */
module CharacterCreation {
  import opened LoginText

  const NAME_MAX_SYLLABLES: nat := 6
  const STAT_MIN: int := 5
  const STAT_MAX: int := 18
  const STAT_TOTAL: int := 54
  const WEAPONS: int := 5

  datatype Stats = Stats(strength: int, dexterity: int, constitution: int, intelligence: int, piety: int) {
    function Sum(): int { strength + dexterity + constitution + intelligence + piety }

    function Plus(b: Stats): Stats {
      Stats(strength + b.strength, dexterity + b.dexterity, constitution + b.constitution,
            intelligence + b.intelligence, piety + b.piety)
    }
  }

  predicate InRange(n: int) { STAT_MIN <= n <= STAT_MAX }

  /** What the stat step promises the player: 54 points, 5 to 18 each. */
  predicate BaseStats(s: Stats) {
    && InRange(s.strength) && InRange(s.dexterity) && InRange(s.constitution)
    && InRange(s.intelligence) && InRange(s.piety) && s.Sum() <= STAT_TOTAL
  }

  datatype Create = Create(name: string, male: bool, class_: int, stats: Stats, weapon: int, chaos: bool, race: int)

  const NO_STATS := Stats(0, 0, 0, 0, 0)
  const NO_CREATE := Create("", false, 0, NO_STATS, 0, false, 0)

  // ----- reading a choice -----

  datatype Choice = Chosen(value: int) | NoChoice

  /** `legacyCreateDigitChoice` */
  function DigitChoice(line: string, min: int, max: int): (r: Choice)
    ensures r.Chosen? ==> min <= r.value <= max
  {
    var t := Trim(line);
    if t == [] || !IsDigit(t[0]) then NoChoice else
      var n := t[0] as int - '0' as int;
      if min <= n <= max then Chosen(n) else NoChoice
  }

  /** The classes are numbered as they are offered. */
  function ClassChoice(line: string): Choice { DigitChoice(line, 1, 8) }

  const DWARF := 1
  const ELF := 2
  const HALF_ELF := 3
  const HOBBIT := 4
  const HUMAN := 5
  const ORC := 6
  const HALF_GIANT := 7
  const GNOME := 8

  /** The races are not: the menu's order is another one. */
  function RaceChoice(line: string): Choice {
    match DigitChoice(line, 1, 8)
    case NoChoice => NoChoice
    case Chosen(n) =>
      Chosen([DWARF, ELF, GNOME, HALF_ELF, HALF_GIANT, HOBBIT, HUMAN, ORC][n - 1])
  }

  datatype StatChoice = StatsChosen(stats: Stats) | TooFew | OutOfRange | TooMany

  /** `legacyCreateStatChoices`: words past the fifth are ignored. */
  function StatsFrom(line: string): StatChoice {
    var f := Fields(line);
    if |f| < 5 then TooFew else
      var s := Stats(AtoiOrZero(f[0]), AtoiOrZero(f[1]), AtoiOrZero(f[2]), AtoiOrZero(f[3]), AtoiOrZero(f[4]));
      if !(InRange(s.strength) && InRange(s.dexterity) && InRange(s.constitution)
           && InRange(s.intelligence) && InRange(s.piety)) then OutOfRange
      else if s.Sum() > STAT_TOTAL then TooMany
      else StatsChosen(s)
  }

  /** The loop of `legacyCreateStatChoices`, which stops at the first bad value. */
  method ReadStats(line: string) returns (r: StatChoice)
    ensures r == StatsFrom(line)
  {
    var f := Fields(line);
    if |f| < 5 {
      return TooFew;
    }
    var values := new int[5];
    var sum := 0;
    var i := 0;
    while i < 5
      invariant i <= 5
      invariant forall k :: 0 <= k < i ==> values[k] == AtoiOrZero(f[k]) && InRange(values[k])
      invariant sum == (if i > 0 then values[0] else 0) + (if i > 1 then values[1] else 0)
        + (if i > 2 then values[2] else 0) + (if i > 3 then values[3] else 0) + (if i > 4 then values[4] else 0)
    {
      var value := AtoiOrZero(f[i]);
      if value < STAT_MIN || value > STAT_MAX {
        return OutOfRange;
      }
      values[i] := value;
      sum := sum + value;
      i := i + 1;
    }
    if sum > STAT_TOTAL {
      return TooMany;
    }
    return StatsChosen(Stats(values[0], values[1], values[2], values[3], values[4]));
  }

  /** What each race adds to and takes from the player's points. */
  function RaceBonus(race: int): Stats {
    if race == DWARF then Stats(5, 2, 0, 0, -1)
    else if race == ELF then Stats(-1, 0, -1, 2, 0)
    else if race == GNOME then Stats(-1, 0, 0, 0, 5)
    else if race == HALF_ELF then Stats(0, 0, -1, 5, 0)
    else if race == HOBBIT then Stats(-1, 5, 0, 0, -2)
    else if race == HUMAN then Stats(-3, 0, -1, 0, 0)
    else if race == ORC then Stats(1, 3, 5, -1, 0)
    else if race == HALF_GIANT then Stats(5, 0, 0, -3, -1)
    else NO_STATS
  }

  /** `legacyApplyCreateRaceBonus`, field by field. */
  method ApplyRaceBonus(create: Create) returns (c: Create)
    ensures c == create.(stats := create.stats.Plus(RaceBonus(create.race)))
  {
    var s := create.stats;
    if create.race == DWARF {
      s := s.(strength := s.strength + 5);
      s := s.(piety := s.piety - 1);
      s := s.(dexterity := s.dexterity + 2);
    } else if create.race == ELF {
      s := s.(intelligence := s.intelligence + 2);
      s := s.(constitution := s.constitution - 1);
      s := s.(strength := s.strength - 1);
    } else if create.race == GNOME {
      s := s.(piety := s.piety + 5);
      s := s.(strength := s.strength - 1);
    } else if create.race == HALF_ELF {
      s := s.(intelligence := s.intelligence + 5);
      s := s.(constitution := s.constitution - 1);
    } else if create.race == HOBBIT {
      s := s.(dexterity := s.dexterity + 5);
      s := s.(strength := s.strength - 1);
      s := s.(piety := s.piety - 2);
    } else if create.race == HUMAN {
      s := s.(constitution := s.constitution - 1);
      s := s.(strength := s.strength - 3);
    } else if create.race == ORC {
      s := s.(strength := s.strength + 1);
      s := s.(constitution := s.constitution + 5);
      s := s.(dexterity := s.dexterity + 3);
      s := s.(intelligence := s.intelligence - 1);
    } else if create.race == HALF_GIANT {
      s := s.(strength := s.strength + 5);
      s := s.(intelligence := s.intelligence - 3);
      s := s.(piety := s.piety - 1);
    }
    c := create.(stats := s);
  }

  // ----- the dialogue -----

  datatype Stage = Confirm | Enter | Gender | Class | StatPoints | Weapon | Alignment | Race | NewPassword

  function Position(g: Stage): nat {
    match g
    case Confirm => 0 case Enter => 1 case Gender => 2 case Class => 3 case StatPoints => 4
    case Weapon => 5 case Alignment => 6 case Race => 7 case NewPassword => 8
  }

  datatype Progress = At(stage: Stage, create: Create) | BackToName

  function Yes(line: string): bool {
    var t := Trim(line);
    t == "\U{C608}" || HasPrefix(t, "y") || HasPrefix(t, "Y")
  }

  /** The answer to a question of the dialogue, the password apart. */
  function Answer(g: Stage, c: Create, line: string): Progress
    requires g != NewPassword
  {
    var t := Trim(line);
    match g
    case Confirm => if Yes(line) then At(Enter, c) else BackToName
    case Enter => At(Gender, c)
    case Gender =>
      if HasPrefix(t, "\U{B0A8}") then At(Class, c.(male := true))
      else if HasPrefix(t, "\U{C5EC}") then At(Class, c.(male := false))
      else At(Gender, c)
    case Class =>
      (match ClassChoice(line) case Chosen(n) => At(StatPoints, c.(class_ := n)) case NoChoice => At(Class, c))
    case StatPoints =>
      (match StatsFrom(line) case StatsChosen(s) => At(Weapon, c.(stats := s)) case _ => At(StatPoints, c))
    case Weapon =>
      (match DigitChoice(line, 1, WEAPONS)
       case Chosen(n) => At(Alignment, c.(weapon := n - 1)) case NoChoice => At(Weapon, c))
    case Alignment =>
      if HasPrefix(t, "\U{C545}") then At(Race, c.(chaos := true))
      else if HasPrefix(t, "\U{C120}") then At(Race, c.(chaos := false))
      else At(Alignment, c)
    case Race =>
      (match RaceChoice(line)
       case Chosen(r) => At(NewPassword, c.(race := r, stats := c.stats.Plus(RaceBonus(r))))
       case NoChoice => At(Race, c))
  }

  /** `handleCreateConfirm` to `handleCreateRace`. */
  method GiveAnswer(g: Stage, create: Create, line: string) returns (p: Progress)
    requires g != NewPassword
    ensures p == Answer(g, create, line)
  {
    hide Trim, StatsFrom, DigitChoice, RaceBonus, HasPrefix, Stats.Plus;
    var c := create;
    match g
    case Confirm =>
      return if Yes(line) then At(Enter, c) else BackToName;
    case Enter =>
      return At(Gender, c);
    case Gender =>
      var t := Trim(line);
      if HasPrefix(t, "\U{B0A8}") {
        c := c.(male := true);
      } else if HasPrefix(t, "\U{C5EC}") {
        c := c.(male := false);
      } else {
        return At(Gender, c);
      }
      return At(Class, c);
    case Class =>
      var choice := ClassChoice(line);
      if choice.NoChoice? {
        return At(Class, c);
      }
      return At(StatPoints, c.(class_ := choice.value));
    case StatPoints =>
      var choice := ReadStats(line);
      if !choice.StatsChosen? {
        return At(StatPoints, c);
      }
      return At(Weapon, c.(stats := choice.stats));
    case Weapon =>
      var choice := DigitChoice(line, 1, WEAPONS);
      if choice.NoChoice? {
        return At(Weapon, c);
      }
      return At(Alignment, c.(weapon := choice.value - 1));
    case Alignment =>
      var t := Trim(line);
      if HasPrefix(t, "\U{C545}") {
        c := c.(chaos := true);
      } else if HasPrefix(t, "\U{C120}") {
        c := c.(chaos := false);
      } else {
        return At(Alignment, c);
      }
      return At(Race, c);
    case Race =>
      var choice := RaceChoice(line);
      if choice.NoChoice? {
        return At(Race, c);
      }
      c := ApplyRaceBonus(c.(race := choice.value));
      return At(NewPassword, c);
  }

  /** `legacyCreateNameRejection` lets the name through. */
  predicate NameAccepted(name: string) {
    name != "" && AllHangul(name) && |name| <= NAME_MAX_SYLLABLES
  }

  // ----- building the character -----

  datatype Build = Built(name: string) | NoName | BadClass | NoRace | BadWeapon

  /** The validation of `legacyCreatedPlayerCharacter`; the class table has the
      classes 1 to 8. */
  function BuildCharacter(c: Create): Build {
    var name := Trim(c.name);
    if name == "" then NoName
    else if !(1 <= c.class_ <= 8) then BadClass
    else if c.race == 0 then NoRace
    else if c.weapon < 0 || c.weapon >= WEAPONS then BadWeapon
    else Built(name)
  }

  // ----- what each stage can rely on -----

  /** Everything asked before a stage has been answered validly, and the race's
      bonus has been added to the player's own points exactly when the race is known. */
  ghost predicate Ready(g: Stage, c: Create) {
    && NameAccepted(c.name) && Trim(c.name) == c.name
    && (Position(g) > Position(Class) ==> 1 <= c.class_ <= 8)
    && (Position(g) > Position(Weapon) ==> 0 <= c.weapon < WEAPONS)
    && (Position(StatPoints) < Position(g) < Position(NewPassword) ==> BaseStats(c.stats))
    && (g == NewPassword ==> 1 <= c.race <= 8 && exists base :: BaseStats(base) && c.stats == base.Plus(RaceBonus(c.race)))
  }

  /** Any answer, good or bad, leads to a stage that is ready, and at most one
      stage on. */
  lemma AnswerReady(g: Stage, c: Create, line: string)
    requires g != NewPassword && Ready(g, c)
    ensures var p := Answer(g, c, line);
      p.At? ==> Ready(p.stage, p.create) && Position(g) <= Position(p.stage) <= Position(g) + 1
  {
    hide Trim, NameAccepted, StatsFrom, RaceBonus, DigitChoice, BaseStats, HasPrefix, Stats.Plus;
    StatsFromBase(line);
    RaceChoiceInRange(line);
    var p := Answer(g, c, line);
    if p.At? && p.stage == NewPassword {
      assert BaseStats(c.stats) && p.create.stats == c.stats.Plus(RaceBonus(p.create.race));
    }
  }

  lemma StatsFromBase(line: string)
    ensures StatsFrom(line).StatsChosen? ==> BaseStats(StatsFrom(line).stats)
  {
    hide Fields, AtoiOrZero;
  }

  lemma RaceChoiceInRange(line: string)
    ensures RaceChoice(line).Chosen? ==> 1 <= RaceChoice(line).value <= 8
  {
    hide DigitChoice;
  }

  lemma NameReady(line: string)
    requires NameAccepted(Trim(line))
    ensures Ready(Confirm, NO_CREATE.(name := Trim(line)))
  {
    TrimTwice(line);
  }

  /** At the password step the character can always be built, and its stats are
      the player's points with the race's bonus: from 2 to 23 each, and 62 in all
      at the most. */
  lemma ReadyBuilds(c: Create)
    requires Ready(NewPassword, c)
    ensures BuildCharacter(c).Built? && BuildCharacter(c).name == c.name
    ensures 2 <= c.stats.strength <= 23 && 5 <= c.stats.dexterity <= 23 && 4 <= c.stats.constitution <= 23
    ensures 2 <= c.stats.intelligence <= 23 && 3 <= c.stats.piety <= 23 && c.stats.Sum() <= 62
  {
    hide Trim, AllHangul;
    var base :| BaseStats(base) && c.stats == base.Plus(RaceBonus(c.race));
    BonusBounds(base, c.race);
  }

  lemma BonusBounds(base: Stats, race: int)
    requires BaseStats(base) && 1 <= race <= 8
    ensures var s := base.Plus(RaceBonus(race));
      && 2 <= s.strength <= 23 && 5 <= s.dexterity <= 23 && 4 <= s.constitution <= 23
      && 2 <= s.intelligence <= 23 && 3 <= s.piety <= 23 && s.Sum() <= 62
  {
  }
}
