/** The whole character-creation dialogue of cmd/muhan-server/login.go: what is
    answered is what is recorded. */
module CreationDialogue {
  import opened LoginText
  import opened CharacterCreation

  // ----- numbers and words -----

  function DigitChar(d: nat): (c: char)
    requires d < 10
    ensures IsDigit(c) && c as int == '0' as int + d
  {
    ('0' as int + d) as char
  }

  function Decimal(n: nat): (s: string)
    ensures s != [] && forall i :: 0 <= i < |s| ==> IsDigit(s[i])
  {
    if n < 10 then [DigitChar(n)] else Decimal(n / 10) + [DigitChar(n % 10)]
  }

  lemma {:induction false} DecimalDigits(n: nat)
    ensures Digits(Decimal(n)) == n
  {
    if n < 10 {
      assert [DigitChar(n)][..0] == [];
    } else {
      DecimalDigits(n / 10);
      var s := Decimal(n / 10);
      assert (s + [DigitChar(n % 10)])[..|s|] == s;
    }
  }

  lemma DecimalReads(n: nat)
    requires n < 0x8000_0000_0000_0000
    ensures AtoiOrZero(Decimal(n)) == n
  {
    DecimalDigits(n);
    assert IsDigit(Decimal(n)[0]);
  }

  predicate IsWord(w: string) { w != [] && forall i :: 0 <= i < |w| ==> !IsSpace(w[i]) }

  function Spaced(words: seq<string>): string {
    if words == [] then [] else if |words| == 1 then words[0] else words[0] + " " + Spaced(words[1..])
  }

  lemma {:induction false} WordEnds(w: string, rest: string)
    requires IsWord(w) && (rest == [] || IsSpace(rest[0]))
    ensures WordEnd(w + rest) == |w|
  {
    hide IsSpace;
    if |w| > 1 {
      assert (w + rest)[1..] == w[1..] + rest;
      WordEnds(w[1..], rest);
    }
  }

  lemma FieldsCons(w: string, rest: string)
    requires IsWord(w) && (rest == [] || IsSpace(rest[0]))
    ensures Fields(w + rest) == [w] + Fields(rest)
  {
    hide IsSpace;
    WordEnds(w, rest);
    assert TrimLeft(w + rest) == w + rest;
    assert (w + rest)[..|w|] == w && (w + rest)[|w|..] == rest;
  }

  /** Words are found again between their spaces. */
  lemma {:induction false} FieldsOfWords(words: seq<string>)
    requires forall i :: 0 <= i < |words| ==> IsWord(words[i])
    ensures Fields(Spaced(words)) == words
  {
    hide IsSpace, Fields, IsWord;
    if words == [] {
      NoFields();
    } else if |words| == 1 {
      NoFields();
      FieldsCons(words[0], []);
      assert words[0] + [] == words[0] && [words[0]] + [] == words;
    } else {
      var rest := Spaced(words[1..]);
      SpaceIsSpace();
      FieldsCons(words[0], " " + rest);
      assert words[0] + " " + rest == words[0] + (" " + rest);
      SpaceSkipped(rest);
      FieldsOfWords(words[1..]);
      assert [words[0]] + words[1..] == words;
    }
  }

  lemma NoFields()
    ensures Fields([]) == []
  {
  }

  lemma SpaceIsSpace()
    ensures IsSpace(' ')
  {
  }

  lemma SpaceSkipped(s: string)
    ensures Fields(" " + s) == Fields(s)
  {
    SpaceIsSpace();
    assert (" " + s)[1..] == s;
  }

  lemma DecimalIsWord(n: nat)
    ensures IsWord(Decimal(n))
  {
  }

  /** The five numbers as a player writes them, strength first. */
  function Written(s: Stats): string
    requires s.strength >= 0 && s.dexterity >= 0 && s.constitution >= 0 && s.intelligence >= 0 && s.piety >= 0
  {
    Spaced([Decimal(s.strength), Decimal(s.dexterity), Decimal(s.constitution), Decimal(s.intelligence), Decimal(s.piety)])
  }

  /** Five numbers are taken, each for what it was written as, exactly if each is
      5 to 18 and they come to 54 at most. */
  lemma StatsRead(s: Stats)
    requires 0 <= s.strength < 1000 && 0 <= s.dexterity < 1000 && 0 <= s.constitution < 1000
    requires 0 <= s.intelligence < 1000 && 0 <= s.piety < 1000
    ensures StatsFrom(Written(s)) ==
      if !(5 <= s.strength <= 18 && 5 <= s.dexterity <= 18 && 5 <= s.constitution <= 18
           && 5 <= s.intelligence <= 18 && 5 <= s.piety <= 18) then OutOfRange
      else if s.strength + s.dexterity + s.constitution + s.intelligence + s.piety > 54 then TooMany
      else StatsChosen(s)
  {
    hide Decimal, Fields, Spaced, IsWord, AtoiOrZero;
    var words := [Decimal(s.strength), Decimal(s.dexterity), Decimal(s.constitution), Decimal(s.intelligence), Decimal(s.piety)];
    DecimalIsWord(s.strength);
    DecimalIsWord(s.dexterity);
    DecimalIsWord(s.constitution);
    DecimalIsWord(s.intelligence);
    DecimalIsWord(s.piety);
    FieldsOfWords(words);
    DecimalReads(s.strength);
    DecimalReads(s.dexterity);
    DecimalReads(s.constitution);
    DecimalReads(s.intelligence);
    DecimalReads(s.piety);
  }

  // ----- the dialogue -----

  /** What a player decides on. `race` is the line of the menu. */
  datatype Character = Character(male: bool, class_: nat, stats: Stats, weapon: nat, chaos: bool, race: nat)

  predicate Offered(k: Character) {
    && 1 <= k.class_ <= 8 && 1 <= k.weapon <= 5 && 1 <= k.race <= 8
    && 5 <= k.stats.strength <= 18 && 5 <= k.stats.dexterity <= 18 && 5 <= k.stats.constitution <= 18
    && 5 <= k.stats.intelligence <= 18 && 5 <= k.stats.piety <= 18
    && k.stats.strength + k.stats.dexterity + k.stats.constitution + k.stats.intelligence + k.stats.piety <= 54
  }

  /** The lines that say so. */
  function Lines(k: Character): seq<string>
    requires Offered(k)
  {
    ["y", "", if k.male then "\U{B0A8}" else "\U{C5EC}", [DigitChar(k.class_)], Written(k.stats),
     [DigitChar(k.weapon)], if k.chaos then "\U{C545}" else "\U{C120}", [DigitChar(k.race)]]
  }

  /** A race of the menu: its number in the game, and what it adds. */
  datatype RaceRow = RaceRow(number: int, strength: int, dexterity: int, constitution: int, intelligence: int, piety: int)

  function RaceAt(line: nat): RaceRow
    requires 1 <= line <= 8
  {
    [RaceRow(1, 5, 2, 0, 0, -1),    // dwarf
     RaceRow(2, -1, 0, -1, 2, 0),   // elf
     RaceRow(8, -1, 0, 0, 0, 5),    // gnome
     RaceRow(3, 0, 0, -1, 5, 0),    // half-elf
     RaceRow(7, 5, 0, 0, -3, -1),   // half-giant
     RaceRow(4, -1, 5, 0, 0, -2),   // hobbit
     RaceRow(5, -3, 0, -1, 0, 0),   // human
     RaceRow(6, 1, 3, 5, -1, 0)]    // orc
      [line - 1]
  }

  /** The record of a character. */
  function Recorded(name: string, k: Character): Create
    requires Offered(k)
  {
    var r, s := RaceAt(k.race), k.stats;
    Create(name, k.male, k.class_,
           Stats(s.strength + r.strength, s.dexterity + r.dexterity, s.constitution + r.constitution,
                 s.intelligence + r.intelligence, s.piety + r.piety),
           k.weapon - 1, k.chaos, r.number)
  }

  /** Answers one after the other, as long as the dialogue asks for them. */
  function AnswerAll(p: Progress, lines: seq<string>): Progress
    decreases |lines|
  {
    if lines == [] || p.BackToName? || p.stage == NewPassword then p
    else AnswerAll(Answer(p.stage, p.create, lines[0]), lines[1..])
  }

  lemma Tokens(d: nat)
    requires d < 10
    ensures Trim([DigitChar(d)]) == [DigitChar(d)] && Trim("y") == "y"
    ensures Trim("\U{B0A8}") == "\U{B0A8}" && Trim("\U{C5EC}") == "\U{C5EC}"
    ensures Trim("\U{C545}") == "\U{C545}" && Trim("\U{C120}") == "\U{C120}"
  {
    hide Trim;
    TrimNothing([DigitChar(d)]);
    TrimNothing("y");
    TrimNothing("\U{B0A8}");
    TrimNothing("\U{C5EC}");
    TrimNothing("\U{C545}");
    TrimNothing("\U{C120}");
  }

  lemma DigitTaken(d: nat, min: int, max: int)
    requires d < 10 && min <= d <= max
    ensures DigitChoice([DigitChar(d)], min, max) == Chosen(d)
  {
    hide Trim;
    Tokens(d);
  }

  lemma RaceTaken(c: Create, d: nat)
    requires 1 <= d <= 8
    ensures Answer(Race, c, [DigitChar(d)]) == At(NewPassword, RaceTakenAs(c, RaceAt(d)))
  {
    hide Trim, DigitChoice;
    DigitTaken(d, 1, 8);
  }

  /** One question of the dialogue. */
  lemma OneAnswer(g: Stage, c: Create, lines: seq<string>, i: nat, p: Progress)
    requires g != NewPassword && i < |lines| && Answer(g, c, lines[i]) == p
    ensures AnswerAll(At(g, c), lines[i..]) == AnswerAll(p, lines[i + 1..])
  {
    hide Answer;
    assert lines[i..][0] == lines[i] && lines[i..][1..] == lines[i + 1..];
  }

  lemma OpeningTaken(c: Create, male: bool)
    ensures Answer(Confirm, c, "y") == At(Enter, c) && Answer(Enter, c, "") == At(Gender, c)
    ensures Answer(Gender, c, if male then "\U{B0A8}" else "\U{C5EC}") == At(Class, c.(male := male))
  {
    hide Trim, DigitChoice, StatsFrom;
    Tokens(0);
  }

  lemma ChoicesTaken(c: Create, k: Character)
    requires Offered(k)
    ensures Answer(Class, c, [DigitChar(k.class_)]) == At(StatPoints, c.(class_ := k.class_))
    ensures Answer(StatPoints, c, Written(k.stats)) == At(Weapon, c.(stats := k.stats))
    ensures Answer(Weapon, c, [DigitChar(k.weapon)]) == At(Alignment, c.(weapon := k.weapon - 1))
    ensures Answer(Alignment, c, if k.chaos then "\U{C545}" else "\U{C120}") == At(Race, c.(chaos := k.chaos))
  {
    hide Trim, DigitChoice, StatsFrom, Written;
    Tokens(0);
    DigitTaken(k.class_, 1, 8);
    DigitTaken(k.weapon, 1, 5);
    StatsRead(k.stats);
  }

  /** Whoever answers the eight questions is asked for a password next, with
      exactly the character described on record. */
  lemma DialogueRecords(name: string, k: Character)
    requires Offered(k)
    ensures AnswerAll(At(Confirm, NO_CREATE.(name := name)), Lines(k)) == At(NewPassword, Recorded(name, k))
  {
    hide AnswerAll, Answer, Lines, Offered, RaceAt;
    var c1 := NO_CREATE.(name := name);
    var c3 := c1.(male := k.male, class_ := k.class_);
    FirstHalf(c1, k);
    SecondHalf(c3, k);
    RaceOffered(k);
    var c6 := c3.(stats := k.stats, weapon := k.weapon - 1, chaos := k.chaos);
    RaceTaken(c6, k.race);
    assert RaceTakenAs(c6, RaceAt(k.race)) == Recorded(name, k);
    assert Lines(k)[0..] == Lines(k);
  }

  /** The record with a race added. */
  function RaceTakenAs(c: Create, r: RaceRow): Create {
    c.(race := r.number,
       stats := Stats(c.stats.strength + r.strength, c.stats.dexterity + r.dexterity,
                      c.stats.constitution + r.constitution, c.stats.intelligence + r.intelligence, c.stats.piety + r.piety))
  }

  lemma FirstHalf(c: Create, k: Character)
    requires Offered(k)
    ensures AnswerAll(At(Confirm, c), Lines(k)[0..]) == AnswerAll(At(StatPoints, c.(male := k.male, class_ := k.class_)), Lines(k)[4..])
  {
    hide AnswerAll, Answer, Written, Offered, RaceAt, DigitChar;
    var l := Lines(k);
    var d := c.(male := k.male);
    OpeningTaken(c, k.male);
    ChoicesTaken(d, k);
    OneAnswer(Confirm, c, l, 0, At(Enter, c));
    OneAnswer(Enter, c, l, 1, At(Gender, c));
    OneAnswer(Gender, c, l, 2, At(Class, d));
    OneAnswer(Class, d, l, 3, At(StatPoints, d.(class_ := k.class_)));
  }

  lemma SecondHalf(c: Create, k: Character)
    requires Offered(k)
    ensures AnswerAll(At(StatPoints, c), Lines(k)[4..])
      == Answer(Race, c.(stats := k.stats, weapon := k.weapon - 1, chaos := k.chaos), [DigitChar(k.race)])
  {
    hide AnswerAll, Answer, Written, Offered, RaceAt, DigitChar;
    var l := Lines(k);
    var c1 := c.(stats := k.stats);
    var c2 := c1.(weapon := k.weapon - 1);
    var c3 := c2.(chaos := k.chaos);
    ChoicesTaken(c, k);
    ChoicesTaken(c1, k);
    ChoicesTaken(c2, k);
    var p := Answer(Race, c3, [DigitChar(k.race)]);
    OneAnswer(StatPoints, c, l, 4, At(Weapon, c1));
    OneAnswer(Weapon, c1, l, 5, At(Alignment, c2));
    OneAnswer(Alignment, c2, l, 6, At(Race, c3));
    OneAnswer(Race, c3, l, 7, p);
    NoLinesLeft(p);
    assert l[8..] == [];
  }

  lemma RaceOffered(k: Character)
    requires Offered(k)
    ensures 1 <= k.race <= 8
  {
  }

  lemma NoLinesLeft(p: Progress)
    ensures AnswerAll(p, []) == p
  {
  }

  /** A question asked again has recorded nothing. */
  lemma RefusalKeeps(g: Stage, c: Create, line: string)
    requires g != NewPassword
    ensures Answer(g, c, line).At? && Answer(g, c, line).stage == g ==> Answer(g, c, line).create == c
  {
    hide Trim, DigitChoice, StatsFrom, HasPrefix;
  }
  // ----- any line at all -----

  predicate Begins(t: string, c: char) { t != [] && t[0] == c }

  /** What makes an answer is its first letter, spaces aside; to the first question
      also the syllable for yes, alone. */
  lemma FirstLetterAnswers(c: Create, line: string)
    ensures var t := Trim(line);
      && Answer(Confirm, c, line) == (if t == "\U{C608}" || Begins(t, 'y') || Begins(t, 'Y') then At(Enter, c) else BackToName)
      && Answer(Gender, c, line) == (if Begins(t, '\U{B0A8}') then At(Class, c.(male := true))
                                     else if Begins(t, '\U{C5EC}') then At(Class, c.(male := false)) else At(Gender, c))
      && Answer(Alignment, c, line) == (if Begins(t, '\U{C545}') then At(Race, c.(chaos := true))
                                        else if Begins(t, '\U{C120}') then At(Race, c.(chaos := false)) else At(Alignment, c))
  {
    hide Trim, DigitChoice, StatsFrom;
    var t := Trim(line);
    if t != [] { assert t[..1] == [t[0]]; }
  }

  /** To a numbered question it is the first digit, and it must be offered. */
  lemma FirstDigitAnswers(line: string, min: int, max: int)
    ensures var t := Trim(line);
      DigitChoice(line, min, max) ==
        if t != [] && '0' <= t[0] <= '9' && min <= t[0] as int - '0' as int <= max
        then Chosen(t[0] as int - '0' as int) else NoChoice
  {
    hide Trim;
  }

  /** Fewer than five words are no stats. */
  lemma TooFewWords(words: seq<string>)
    requires |words| < 5 && forall i :: 0 <= i < |words| ==> IsWord(words[i])
    ensures StatsFrom(Spaced(words)) == TooFew
  {
    hide Fields, Spaced, IsWord, AtoiOrZero;
    FieldsOfWords(words);
  }

  /** Whether a record can be made into a character. */
  lemma BuildRefuses(c: Create)
    ensures BuildCharacter(c).Built? <==>
      Trim(c.name) != "" && 1 <= c.class_ <= 8 && c.race != 0 && 0 <= c.weapon < 5
    ensures BuildCharacter(c).Built? ==> BuildCharacter(c).name == Trim(c.name)
  {
    hide Trim;
  }
}
