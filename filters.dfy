/** The query filters of `ServiceImpl` (`filterByName` … `filterByLevel`)
    and the controller's conjunction of all eight. Each filter yields either
    no constraint (the JPA `null` predicate, here `None`) or one criterion of
    the criteria builder, here a `Criterion` value with its meaning `Holds`. */
module Filters {
  import opened Common
  import opened Entity

  /** `s` begins with `pre`. */
  predicate IsPrefix(pre: string, s: string) {
    |pre| <= |s| && s[..|pre|] == pre
  }

  /** `sub` occurs in `s`: the meaning of `like '%' + sub + '%'` when `sub`
      holds no wildcard character. */
  predicate Contains(s: string, sub: string)
    decreases |s|
  {
    IsPrefix(sub, s) || (|s| > 0 && Contains(s[1..], sub))
  }

  /** `sub` occurs in `s` starting at index `k`. */
  predicate OccursAt(s: string, sub: string, k: int) {
    0 <= k && k + |sub| <= |s| && s[k..k + |sub|] == sub
  }

  /** The scan `Contains` finds exactly the occurrences at some index. */
  lemma {:induction false} ContainsIffOccurs(s: string, sub: string)
    ensures Contains(s, sub) <==> exists k :: OccursAt(s, sub, k)
    decreases |s|
  {
    if IsPrefix(sub, s) {
      assert OccursAt(s, sub, 0);
    } else if |s| > 0 {
      ContainsIffOccurs(s[1..], sub);
      if Contains(s[1..], sub) {
        var k :| OccursAt(s[1..], sub, k);
        assert s[k + 1..k + 1 + |sub|] == s[1..][k..k + |sub|];
        assert OccursAt(s, sub, k + 1);
      }
      if exists k :: OccursAt(s, sub, k) {
        var k :| OccursAt(s, sub, k);
        assert s[1..][k - 1..k - 1 + |sub|] == s[k..k + |sub|];
        assert OccursAt(s[1..], sub, k - 1);
      }
    }
  }

  /** The empty search string matches every text. */
  lemma ContainsEmpty(s: string)
    ensures Contains(s, "")
  {
    assert IsPrefix("", s);
  }

  /** Columns compared as text, and columns compared as numbers (the
      birthday as its epoch milliseconds). */
  datatype TextColumn = NameColumn | TitleColumn
  datatype NumberColumn = BirthdayColumn | ExperienceColumn | LevelColumn

  function Text(c: TextColumn, p: Player): string {
    match c
    case NameColumn => p.name
    case TitleColumn => p.title
  }

  function Number(c: NumberColumn, p: Player): int {
    match c
    case BirthdayColumn => p.birthday
    case ExperienceColumn => p.experience
    case LevelColumn => p.level
  }

  /** The criteria the filters build. */
  datatype Criterion =
    | Like(text: TextColumn, pattern: string)          // like(column, "%" + pattern + "%")
    | RaceEqual(race: Race)                            // equal(race, value)
    | ProfessionEqual(profession: Profession)          // equal(profession, value)
    | IsTrue                                           // isTrue(banned)
    | IsFalse                                          // isFalse(banned)
    | AtLeast(number: NumberColumn, min: int)          // greaterThanOrEqualTo
    | AtMost(number: NumberColumn, max: int)           // lessThanOrEqualTo
    | Between(number: NumberColumn, lo: int, hi: int)  // between, both ends included

  /** Whether a player meets a criterion. */
  predicate Holds(c: Criterion, p: Player) {
    match c
    case Like(t, pattern) => Contains(Text(t, p), pattern)
    case RaceEqual(r) => p.race == r
    case ProfessionEqual(pr) => p.profession == pr
    case IsTrue => p.banned
    case IsFalse => !p.banned
    case AtLeast(n, min) => min <= Number(n, p)
    case AtMost(n, max) => Number(n, p) <= max
    case Between(n, lo, hi) => lo <= Number(n, p) <= hi
  }

  /** A filter's result: `None` is the `null` predicate, which constrains nothing. */
  type Spec = Option<Criterion>

  /** A value lies within the optional bounds; an absent bound does not constrain. */
  predicate WithinBounds(v: int, min: Option<int>, max: Option<int>) {
    (min.None? || min.value <= v) && (max.None? || v <= max.value)
  }

  /** The shared shape of `filterByBirthday`, `filterByExperience` and
      `filterByLevel`: no constraint when both bounds are null, `<=` when only
      the upper bound is given, `>=` when only the lower one is, `between`
      otherwise. */
  function FilterByRange(column: NumberColumn, min: Option<int>, max: Option<int>): (r: Spec)
    ensures r.None? <==> min.None? && max.None?
    ensures r.Some? ==> forall p :: Holds(r.value, p) <==> WithinBounds(Number(column, p), min, max)
  {
    if min.None? && max.None? then None
    else if min.None? then Some(AtMost(column, max.value))
    else if max.None? then Some(AtLeast(column, min.value))
    else Some(Between(column, min.value, max.value))
  }

  /** `filterByName`: players whose name contains the search string. */
  function FilterByName(name: Option<string>): (r: Spec)
    ensures r.None? <==> name.None?
    ensures r.Some? ==> forall p :: Holds(r.value, p) <==> Contains(p.name, name.value)
  {
    if name.None? then None else Some(Like(NameColumn, name.value))
  }

  /** `filterByTitle`: players whose title contains the search string. */
  function FilterByTitle(title: Option<string>): (r: Spec)
    ensures r.None? <==> title.None?
    ensures r.Some? ==> forall p :: Holds(r.value, p) <==> Contains(p.title, title.value)
  {
    if title.None? then None else Some(Like(TitleColumn, title.value))
  }

  /** `filterByRace`: players of exactly that race. */
  function FilterByRace(race: Option<Race>): (r: Spec)
    ensures r.None? <==> race.None?
    ensures r.Some? ==> forall p :: Holds(r.value, p) <==> p.race == race.value
  {
    if race.None? then None else Some(RaceEqual(race.value))
  }

  /** `filterByProfession`: players of exactly that profession. */
  function FilterByProfession(profession: Option<Profession>): (r: Spec)
    ensures r.None? <==> profession.None?
    ensures r.Some? ==> forall p :: Holds(r.value, p) <==> p.profession == profession.value
  {
    if profession.None? then None else Some(ProfessionEqual(profession.value))
  }

  /** `filterByBirthday`: birthdays within `[after, before]`, each end optional. */
  function FilterByBirthday(after: Option<Millis>, before: Option<Millis>): (r: Spec)
    ensures r.None? <==> after.None? && before.None?
    ensures r.Some? ==> forall p :: Holds(r.value, p) <==> WithinBounds(p.birthday, after, before)
  {
    FilterByRange(BirthdayColumn, after, before)
  }

  /** `filterByBanned`: `isTrue` or `isFalse` on the banned flag. */
  function FilterByBanned(banned: Option<bool>): (r: Spec)
    ensures r.None? <==> banned.None?
    ensures r.Some? ==> forall p :: Holds(r.value, p) <==> p.banned == banned.value
  {
    if banned.None? then None
    else if banned.value then Some(IsTrue)
    else Some(IsFalse)
  }

  /** `filterByExperience`: experience within `[min, max]`, each end optional. */
  function FilterByExperience(min: Option<int>, max: Option<int>): (r: Spec)
    ensures r.None? <==> min.None? && max.None?
    ensures r.Some? ==> forall p :: Holds(r.value, p) <==> WithinBounds(p.experience, min, max)
  {
    FilterByRange(ExperienceColumn, min, max)
  }

  /** `filterByLevel`: level within `[min, max]`, each end optional. */
  function FilterByLevel(min: Option<int>, max: Option<int>): (r: Spec)
    ensures r.None? <==> min.None? && max.None?
    ensures r.Some? ==> forall p :: Holds(r.value, p) <==> WithinBounds(p.level, min, max)
  {
    FilterByRange(LevelColumn, min, max)
  }

  /** With both bounds given and the lower above the upper, a range filter
      matches no player. */
  lemma InvertedRangeMatchesNothing(column: NumberColumn, min: int, max: int, p: Player)
    requires min > max
    ensures FilterByRange(column, Some(min), Some(max)) == Some(Between(column, min, max))
    ensures !Holds(FilterByRange(column, Some(min), Some(max)).value, p)
  {
  }

  /** The query parameters of `GET /players` and `GET /players/count`. */
  datatype Query = Query(
    name: Option<string>,
    title: Option<string>,
    race: Option<Race>,
    profession: Option<Profession>,
    after: Option<Millis>,
    before: Option<Millis>,
    banned: Option<bool>,
    minExperience: Option<int>,
    maxExperience: Option<int>,
    minLevel: Option<int>,
    maxLevel: Option<int>)

  /** A query with every parameter absent. */
  const NoQuery := Query(None, None, None, None, None, None, None, None, None, None, None)

  /** A player meets a conjunction when it meets every criterion in it; a
      `null` predicate is left out of the conjunction. */
  predicate Satisfies(specs: seq<Spec>, p: Player) {
    forall i :: 0 <= i < |specs| && specs[i].Some? ==> Holds(specs[i].value, p)
  }

  /** What a query asks of a player, written parameter by parameter: each
      present parameter constrains its column, an absent one does not. */
  predicate MatchesQuery(q: Query, p: Player) {
    && (q.name.None? || Contains(p.name, q.name.value))
    && (q.title.None? || Contains(p.title, q.title.value))
    && (q.race.None? || p.race == q.race.value)
    && (q.profession.None? || p.profession == q.profession.value)
    && WithinBounds(p.birthday, q.after, q.before)
    && (q.banned.None? || p.banned == q.banned.value)
    && WithinBounds(p.experience, q.minExperience, q.maxExperience)
    && WithinBounds(p.level, q.minLevel, q.maxLevel)
  }

  /** `specs` holds the eight filters of `q`, in the controller's order. */
  predicate FiltersOf(q: Query, specs: seq<Spec>) {
    && |specs| == 8
    && specs[0] == FilterByName(q.name)
    && specs[1] == FilterByTitle(q.title)
    && specs[2] == FilterByRace(q.race)
    && specs[3] == FilterByProfession(q.profession)
    && specs[4] == FilterByBirthday(q.after, q.before)
    && specs[5] == FilterByBanned(q.banned)
    && specs[6] == FilterByExperience(q.minExperience, q.maxExperience)
    && specs[7] == FilterByLevel(q.minLevel, q.maxLevel)
  }

  /** A player the joined filters accept meets every present parameter. */
  lemma ConjunctionSound(q: Query, specs: seq<Spec>, p: Player)
    requires FiltersOf(q, specs) && Satisfies(specs, p)
    ensures MatchesQuery(q, p)
  {
    assert q.name.Some? ==> Holds(specs[0].value, p);
    assert q.title.Some? ==> Holds(specs[1].value, p);
    assert q.race.Some? ==> Holds(specs[2].value, p);
    assert q.profession.Some? ==> Holds(specs[3].value, p);
    assert q.after.Some? || q.before.Some? ==> Holds(specs[4].value, p);
    assert q.banned.Some? ==> Holds(specs[5].value, p);
    assert q.minExperience.Some? || q.maxExperience.Some? ==> Holds(specs[6].value, p);
    assert q.minLevel.Some? || q.maxLevel.Some? ==> Holds(specs[7].value, p);
  }

  /** A player meeting every present parameter passes every joined filter. */
  lemma ConjunctionComplete(q: Query, specs: seq<Spec>, p: Player)
    requires FiltersOf(q, specs) && MatchesQuery(q, p)
    ensures Satisfies(specs, p)
  {
    forall i | 0 <= i < |specs| && specs[i].Some?
      ensures Holds(specs[i].value, p)
    {
    }
  }

  /** The eight filters, joined, select exactly the players the query
      describes. */
  lemma ConjunctionMeaning(q: Query, specs: seq<Spec>, p: Player)
    requires FiltersOf(q, specs)
    ensures Satisfies(specs, p) <==> MatchesQuery(q, p)
  {
    if Satisfies(specs, p) {
      ConjunctionSound(q, specs, p);
    }
    if MatchesQuery(q, p) {
      ConjunctionComplete(q, specs, p);
    }
  }

  /** The same, for every player at once. */
  lemma ConjunctionMeaningAll(q: Query, specs: seq<Spec>)
    requires FiltersOf(q, specs)
    ensures forall p :: Satisfies(specs, p) <==> MatchesQuery(q, p)
  {
    forall p ensures Satisfies(specs, p) <==> MatchesQuery(q, p) {
      ConjunctionMeaning(q, specs, p);
    }
  }

  /** The controller's `Specification.where(...).and(...)` chain: the eight
      filters, in the order they are joined. It selects exactly the players
      the query describes. */
  function Conjunction(q: Query): (specs: seq<Spec>)
    ensures FiltersOf(q, specs)
    ensures forall p :: Satisfies(specs, p) <==> MatchesQuery(q, p)
  {
    var specs := [ FilterByName(q.name),
                   FilterByTitle(q.title),
                   FilterByRace(q.race),
                   FilterByProfession(q.profession),
                   FilterByBirthday(q.after, q.before),
                   FilterByBanned(q.banned),
                   FilterByExperience(q.minExperience, q.maxExperience),
                   FilterByLevel(q.minLevel, q.maxLevel) ];
    ConjunctionMeaningAll(q, specs);
    specs
  }

  /** With every parameter absent, every player is selected. */
  lemma NoQueryMatchesAll()
    ensures forall p :: Satisfies(Conjunction(NoQuery), p) && MatchesQuery(NoQuery, p)
  {
  }

  /** A lower experience bound excludes every player below it. */
  lemma MinExperienceExcludesBelow(q: Query, p: Player)
    requires q.minExperience.Some? && p.experience < q.minExperience.value
    ensures !Satisfies(Conjunction(q), p)
  {
  }
}
