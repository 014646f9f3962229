/** The `Player` entity: the stored record, and the request body whose every
    field may be null. */
module Entity {
  import opened Common

  /** The `Race` and `Profession` enumerations are not part of this model;
      each constant is identified by its position in the enumeration. */
  datatype Race = Race(ordinal: nat)
  datatype Profession = Profession(ordinal: nat)

  /** A `java.util.Date`, as milliseconds since the epoch. */
  type Millis = int

  /** A stored player: every column is set. */
  datatype Player = Player(
    id: int,
    name: string,
    title: string,
    race: Race,
    profession: Profession,
    experience: int,
    level: int,
    untilNextLevel: int,
    birthday: Millis,
    banned: bool)

  /** A player as bound from a request body: any field may be null. It is
      the input of creation and the patch of a partial update. */
  datatype PlayerPatch = PlayerPatch(
    id: Option<int>,
    name: Option<string>,
    title: Option<string>,
    race: Option<Race>,
    profession: Option<Profession>,
    experience: Option<int>,
    level: Option<int>,
    untilNextLevel: Option<int>,
    birthday: Option<Millis>,
    banned: Option<bool>)

  /** A request body with every field null. */
  const EmptyPatch := PlayerPatch(None, None, None, None, None, None, None, None, None, None)
}
