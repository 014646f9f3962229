/** Field validation of `ServiceImpl`: the null check of creation, the range
    check `checkParam` that both creation and partial update run, and the
    shape every stored player keeps. */
module Validation {
  import opened Common
  import opened Entity
  import opened Level

  const MaxNameLength := 12
  const MaxTitleLength := 30
  const MinYear := 2000
  const MaxYear := 3000

  predicate NameOk(name: string) { 1 <= |name| <= MaxNameLength }
  predicate TitleOk(title: string) { 1 <= |title| <= MaxTitleLength }
  predicate ExperienceOk(exp: int) { 0 <= exp <= MaxExperience }
  /** Both end years are admitted. */
  predicate YearOk(year: int) { MinYear <= year <= MaxYear }

  /** Every field that `checkParam` inspects is either null or in range.
      `yearOf` is the calendar year of a date in the default time zone. */
  predicate Admissible(p: PlayerPatch, yearOf: Millis -> int) {
    && (p.name.Some? ==> NameOk(p.name.value))
    && (p.title.Some? ==> TitleOk(p.title.value))
    && (p.experience.Some? ==> ExperienceOk(p.experience.value))
    && (p.birthday.Some? ==> YearOk(yearOf(p.birthday.value)))
  }

  /** `checkParam`: the first present field out of range, in the order name,
      title, experience, birthday, is refused; absent fields always pass. */
  function CheckParam(p: PlayerPatch, yearOf: Millis -> int): (r: Outcome)
    ensures r.Pass? <==> Admissible(p, yearOf)
    ensures r.Fail? ==> r.error.RequestError?
    ensures r == Fail(RequestError(NameIncorrect)) <==> p.name.Some? && !NameOk(p.name.value)
    ensures r == Fail(RequestError(TitleIncorrect)) <==>
              (p.name.Some? ==> NameOk(p.name.value)) && p.title.Some? && !TitleOk(p.title.value)
    ensures r == Fail(RequestError(ExperienceIncorrect)) <==>
              Admissible(p.(experience := None, birthday := None), yearOf)
              && p.experience.Some? && !ExperienceOk(p.experience.value)
    ensures r == Fail(RequestError(DateIncorrect)) <==>
              Admissible(p.(birthday := None), yearOf) && !Admissible(p, yearOf)
  {
    if p.name.Some? && (|p.name.value| > 12 || |p.name.value| < 1) then
      Fail(RequestError(NameIncorrect))
    else if p.title.Some? && (|p.title.value| < 1 || |p.title.value| > 30) then
      Fail(RequestError(TitleIncorrect))
    else if p.experience.Some? && (p.experience.value < 0 || p.experience.value > 10000000) then
      Fail(RequestError(ExperienceIncorrect))
    else if p.birthday.Some? && (yearOf(p.birthday.value) < 2000 || yearOf(p.birthday.value) > 3000) then
      Fail(RequestError(DateIncorrect))
    else
      Pass
  }

  /** The fields `addPlayer` demands before anything else: name, title,
      race, profession, experience and birthday are all non-null. */
  predicate HasRequired(p: PlayerPatch) {
    p.name.Some? && p.title.Some? && p.race.Some? && p.profession.Some?
    && p.experience.Some? && p.birthday.Some?
  }

  /** A stored player: every field in range and both derived fields
      computed from its experience. */
  predicate WellFormed(p: Player, yearOf: Millis -> int) {
    && NameOk(p.name)
    && TitleOk(p.title)
    && ExperienceOk(p.experience)
    && YearOk(yearOf(p.birthday))
    && p.level == LevelOf(p.experience)
    && p.untilNextLevel == UntilNextLevel(p.experience, p.level)
  }

  /** A stored player read back as a request body. */
  function AsPatch(p: Player): PlayerPatch {
    PlayerPatch(Some(p.id), Some(p.name), Some(p.title), Some(p.race), Some(p.profession),
                Some(p.experience), Some(p.level), Some(p.untilNextLevel), Some(p.birthday), Some(p.banned))
  }

  /** A stored player passes both checks of creation, and its level lies in
      the documented bracket. */
  lemma WellFormedPassesChecks(p: Player, yearOf: Millis -> int)
    requires WellFormed(p, yearOf)
    ensures HasRequired(AsPatch(p)) && CheckParam(AsPatch(p), yearOf) == Pass
    ensures IsLevel(p.experience, p.level) && 0 <= p.level <= MaxLevel
    ensures 1 <= p.untilNextLevel <= 100 * (p.level + 1)
  {
    UntilNextLevelBounds(p.experience);
  }

  /** Dropping fields from a request body never makes it fail `checkParam`. */
  lemma CheckParamAbsentFieldsPass(p: PlayerPatch, yearOf: Millis -> int)
    requires CheckParam(p, yearOf).Pass?
    ensures CheckParam(p.(name := None), yearOf).Pass?
    ensures CheckParam(p.(title := None), yearOf).Pass?
    ensures CheckParam(p.(experience := None), yearOf).Pass?
    ensures CheckParam(p.(birthday := None), yearOf).Pass?
    ensures CheckParam(EmptyPatch, yearOf).Pass?
  {
  }

  /** A name of 13 characters is refused. */
  lemma LongNameRefused(p: PlayerPatch, yearOf: Millis -> int)
    requires p.name.Some? && |p.name.value| == 13
    ensures CheckParam(p, yearOf) == Fail(RequestError(NameIncorrect))
  {
  }
}
