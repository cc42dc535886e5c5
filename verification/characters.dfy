/** The character record and the argument logic of the character commands
    (DungeonMasterGPT.py: `Character.__init__`, `create_character`,
    `update_character`, `update_notes`). A channel's characters are a
    roster from player id to the character and the player's display name;
    each handler either returns the new roster or the reason it refused, in
    which case the roster is left as it was. */
module Characters {
  import opened Wrappers
  import opened Text

  const DefaultNotes := "No notes yet."
  const DefaultArmorClass := 10
  const DefaultHitPoints := 0
  const DefaultLevel := 1
  const DefaultXp := 0

  datatype Character = Character(
    name: string,
    race: string,
    characterClass: string,
    background: string,
    alignment: string,
    stats: map<string, int>,
    armorClass: int,
    hitPoints: int,
    inventory: seq<string>,
    spells: seq<string>,
    level: int,
    xp: int,
    notes: string)

  /** A roster entry: the character and the owner's display name. */
  datatype Player = Player(character: Character, username: string)

  type Roster = map<int, Player>

  datatype CommandError =
    | NotEnoughArguments   // create_character: fewer than five fields
    | NoCharacter          // the player has no character in this channel
    | InvalidAttribute     // update_character: not name/race/class/background
    | MalformedStats       // update_stats: odd word count or a non-integer value
    | NotesTooLong         // update_notes: more than 200 characters

  /** `Character(name, race, character_class, background, alignment, notes)`:
      the five descriptive fields as given, every other attribute at its
      starting value, and `notes or "No notes yet."` (an absent or empty note
      becomes the placeholder). */
  function NewCharacter(name: string, race: string, characterClass: string, background: string,
                        alignment: string, notes: Option<string>): (c: Character)
    ensures c.name == name && c.race == race && c.characterClass == characterClass
    ensures c.background == background && c.alignment == alignment
    ensures c.stats == map[] && c.inventory == [] && c.spells == []
    ensures c.armorClass == 10 && c.hitPoints == 0 && c.level == 1 && c.xp == 0
    ensures c.notes != ""
    ensures notes.Some? && notes.value != "" ==> c.notes == notes.value
    ensures notes.None? || notes == Some("") ==> c.notes == DefaultNotes
  {
    var n := if notes.Some? && notes.value != "" then notes.value else DefaultNotes;
    Character(name, race, characterClass, background, alignment,
              map[], DefaultArmorClass, DefaultHitPoints, [], [], DefaultLevel, DefaultXp, n)
  }

  /** The comma-separated fields of `create_character`, each stripped:
      `[arg.strip() for arg in args.split(',')]`. */
  function CreateFields(args: string): (fields: seq<string>)
    ensures |fields| == multiset(args)[','] + 1
  {
    var pieces := SplitOn(args, ",");
    SplitOnCount(args, ',');
    seq(|pieces|, i requires 0 <= i < |pieces| => Strip(pieces[i]))
  }

  /** The fields are the comma-free pieces of the arguments, each stripped,
      and those pieces joined with commas give the arguments back. */
  lemma CreateFieldsPieces(args: string)
    ensures var pieces := SplitOn(args, ",");
      && |CreateFields(args)| == |pieces|
      && (forall i :: 0 <= i < |pieces| ==> CreateFields(args)[i] == Strip(pieces[i]) && !Contains(pieces[i], ","))
      && Join(",", pieces) == args
  {
    JoinSplitOn(args, ",");
  }

  const MinCreateFields := 5

  /** `create_character`: at least five comma-separated fields are needed
      (name, race, class, background, alignment); a sixth, if present, is
      the notes; anything after it is ignored. The new character replaces
      any earlier one of the same player. */
  function CreateCharacter(roster: Roster, user: int, username: string, args: string): (r: Result<Roster, CommandError>)
    ensures r.Err? <==> multiset(args)[','] < MinCreateFields - 1
    ensures r.Err? ==> r.error == NotEnoughArguments
    ensures r.Ok? ==> r.value.Keys == roster.Keys + {user}
    ensures r.Ok? ==> forall u :: u in roster && u != user ==> r.value[u] == roster[u]
    ensures r.Ok? ==>
      var fields := CreateFields(args);
      r.value[user] == Player(NewCharacter(fields[0], fields[1], fields[2], fields[3], fields[4],
                                           Some(if |fields| > 5 then fields[5] else "")), username)
  {
    var fields := CreateFields(args);
    if |fields| < MinCreateFields then Err(NotEnoughArguments)
    else
      var notes := if |fields| > 5 then fields[5] else "";
      var c := NewCharacter(fields[0], fields[1], fields[2], fields[3], fields[4], Some(notes));
      Ok(roster[user := Player(c, username)])
  }

  /** Fields after the sixth are ignored: once the notes field is present,
      appending `", anything"` to the arguments changes nothing. */
  lemma {:induction false} CreateCharacterIgnoresExtraFields(roster: Roster, user: int, username: string, args: string, extra: string)
    requires multiset(args)[','] >= MinCreateFields
    ensures CreateCharacter(roster, user, username, args + "," + extra) == CreateCharacter(roster, user, username, args)
  {
    var longer := args + "," + extra;
    assert longer == args + [','] + extra;
    SplitOnAppend(args, ',', extra);
    SplitOnCount(args, ',');
    var a := CreateFields(args);
    var b := CreateFields(longer);
    assert |SplitOn(args, ",")| >= 6;
    forall i | 0 <= i < 6
      ensures a[i] == b[i]
    {
      assert SplitOn(longer, ",")[i] == SplitOn(args, ",")[i];
    }
  }

  /** The four attributes `update_character` may change. */
  datatype Field = Name | Race | Class | Background

  /** The command word that selects each field. */
  function FieldKeyword(f: Field): string
  {
    match f
    case Name => "name"
    case Race => "race"
    case Class => "class"
    case Background => "background"
  }

  /** `attribute_mapping.get(attribute.lower())`: exactly the four keywords,
      in any letter case, select a field; "class" selects `character_class`. */
  function AttributeField(attribute: string): (r: Option<Field>)
    ensures forall f :: r == Some(f) <==> Lower(attribute) == FieldKeyword(f)
    ensures r.None? <==> Lower(attribute) !in {"name", "race", "class", "background"}
  {
    var key := Lower(attribute);
    if key == "name" then Some(Name)
    else if key == "race" then Some(Race)
    else if key == "class" then Some(Class)
    else if key == "background" then Some(Background)
    else None
  }

  function FieldValue(c: Character, f: Field): string
  {
    match f
    case Name => c.name
    case Race => c.race
    case Class => c.characterClass
    case Background => c.background
  }

  /** `d` agrees with `c` everywhere except possibly on field `f`. */
  predicate SameExcept(c: Character, d: Character, f: Field)
  {
    && (forall g :: g != f ==> FieldValue(d, g) == FieldValue(c, g))
    && d.alignment == c.alignment && d.stats == c.stats
    && d.armorClass == c.armorClass && d.hitPoints == c.hitPoints
    && d.inventory == c.inventory && d.spells == c.spells
    && d.level == c.level && d.xp == c.xp && d.notes == c.notes
  }

  /** `setattr(character, attribute_key, value)`. */
  function SetField(c: Character, f: Field, v: string): (d: Character)
    ensures FieldValue(d, f) == v
    ensures SameExcept(c, d, f)
  {
    match f
    case Name => c.(name := v)
    case Race => c.(race := v)
    case Class => c.(characterClass := v)
    case Background => c.(background := v)
  }

  /** `update_character attribute value`. */
  function UpdateCharacter(roster: Roster, user: int, attribute: string, value: string): (r: Result<Roster, CommandError>)
    ensures user !in roster <==> r == Err(NoCharacter)
    ensures user in roster && AttributeField(attribute).None? <==> r == Err(InvalidAttribute)
    ensures r.Ok? <==> user in roster && AttributeField(attribute).Some?
    ensures r.Ok? ==> r.value.Keys == roster.Keys
    ensures r.Ok? ==> forall u :: u in roster && u != user ==> r.value[u] == roster[u]
    ensures r.Ok? ==>
      var f := AttributeField(attribute).value;
      && r.value[user].username == roster[user].username
      && FieldValue(r.value[user].character, f) == value
      && SameExcept(roster[user].character, r.value[user].character, f)
  {
    if user !in roster then Err(NoCharacter)
    else match AttributeField(attribute)
      case None => Err(InvalidAttribute)
      case Some(f) =>
        var p := roster[user];
        Ok(roster[user := p.(character := SetField(p.character, f, value))])
  }

  const MaxNotesLength := 200

  /** `update_notes`: notes of up to 200 characters, measured before
      stripping, replace the old ones with surrounding whitespace removed.
      A player without a character gets an error (in Python the unpacking of
      the missing entry raises, and the handler reports it). */
  function UpdateNotes(roster: Roster, user: int, args: string): (r: Result<Roster, CommandError>)
    ensures user !in roster <==> r == Err(NoCharacter)
    ensures user in roster && |args| > MaxNotesLength <==> r == Err(NotesTooLong)
    ensures r.Ok? <==> user in roster && |args| <= MaxNotesLength
    ensures r.Ok? ==> r.value.Keys == roster.Keys
    ensures r.Ok? ==> forall u :: u in roster && u != user ==> r.value[u] == roster[u]
    ensures r.Ok? ==>
      var c := roster[user].character;
      var d := r.value[user].character;
      && r.value[user].username == roster[user].username
      && d.notes == Strip(args)
      && |d.notes| <= MaxNotesLength
      && d == c.(notes := d.notes)
  {
    if user !in roster then Err(NoCharacter)
    else if |args| > MaxNotesLength then Err(NotesTooLong)
    else
      var p := roster[user];
      var notes := Strip(args);
      assert |notes| <= |args|;
      Ok(roster[user := p.(character := p.character.(notes := notes))])
  }
}
