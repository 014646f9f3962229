/** `ServiceImpl`: creation, lookup, partial update and deletion of players
    over a repository, and the filtered queries. The repository is a map
    from id to stored player; a new player takes the next unused id. */
module Service {
  import opened Common
  import opened Entity
  import opened Level
  import opened Validation
  import opened Filters

  /** The player `addPlayer` stores under the fresh id `id`, or the request
      error it throws. The null check comes first, then `checkParam`; the
      derived fields are computed from the experience, whatever the body
      carried, and a null `banned` becomes false. */
  function NewPlayer(input: PlayerPatch, yearOf: Millis -> int, id: int): (r: Result<Player>)
    ensures !HasRequired(input) ==> r == Err(RequestError(ParamIsNull))
    ensures HasRequired(input) ==> (r.Err? <==> !Admissible(input, yearOf))
    ensures HasRequired(input) && !Admissible(input, yearOf) ==> r == Err(CheckParam(input, yearOf).error)
    ensures r.Ok? ==>
              && r.value.id == id
              && Some(r.value.name) == input.name
              && Some(r.value.title) == input.title
              && Some(r.value.race) == input.race
              && Some(r.value.profession) == input.profession
              && Some(r.value.experience) == input.experience
              && Some(r.value.birthday) == input.birthday
              && r.value.banned == input.banned.GetOr(false)
    ensures r.Ok? ==> WellFormed(r.value, yearOf) && IsLevel(r.value.experience, r.value.level)
    ensures r.Ok? ==> 1 <= r.value.untilNextLevel <= 100 * (r.value.level + 1)
  {
    if !HasRequired(input) then Err(RequestError(ParamIsNull))
    else
      match CheckParam(input, yearOf)
      case Fail(e) => Err(e)
      case Pass =>
        var exp := input.experience.value;
        var level := LevelOf(exp);
        UntilNextLevelBounds(exp);
        Ok(Player(id, input.name.value, input.title.value, input.race.value, input.profession.value,
                  exp, level, UntilNextLevel(exp, level), input.birthday.value, input.banned.GetOr(false)))
  }

  /** The record `editPlayer` saves: each non-null field of the patch among
      name, title, race, profession, experience and birthday replaces the
      stored one, `banned` is always replaced (null becomes false), the id is
      kept, and level and untilNextLevel are recomputed from the merged
      experience. A patch's id, level and untilNextLevel are ignored. */
  function Merge(current: Player, patch: PlayerPatch): (r: Player)
    requires ExperienceOk(current.experience)
    requires patch.experience.Some? ==> ExperienceOk(patch.experience.value)
    ensures r.id == current.id
    ensures r.name == patch.name.GetOr(current.name)
    ensures r.title == patch.title.GetOr(current.title)
    ensures r.race == patch.race.GetOr(current.race)
    ensures r.profession == patch.profession.GetOr(current.profession)
    ensures r.experience == patch.experience.GetOr(current.experience)
    ensures r.birthday == patch.birthday.GetOr(current.birthday)
    ensures r.banned == patch.banned.GetOr(false)
    ensures IsLevel(r.experience, r.level)
    ensures r.untilNextLevel == UntilNextLevel(r.experience, r.level)
  {
    var exp := patch.experience.GetOr(current.experience);
    var level := LevelOf(exp);
    Player(current.id,
           patch.name.GetOr(current.name),
           patch.title.GetOr(current.title),
           patch.race.GetOr(current.race),
           patch.profession.GetOr(current.profession),
           exp,
           level,
           UntilNextLevel(exp, level),
           patch.birthday.GetOr(current.birthday),
           patch.banned.GetOr(false))
  }

  /** The outcome of `editPlayer` on a stored player: only the patch is
      validated, never the merged record. */
  function Edited(current: Player, patch: PlayerPatch, yearOf: Millis -> int): (r: Result<Player>)
    requires ExperienceOk(current.experience)
    ensures r.Err? <==> !Admissible(patch, yearOf)
    ensures r.Err? ==> r == Err(CheckParam(patch, yearOf).error)
    ensures r.Ok? ==> r.value == Merge(current, patch)
  {
    match CheckParam(patch, yearOf)
    case Fail(e) => Err(e)
    case Pass => Ok(Merge(current, patch))
  }

  /** Merging an admissible patch into a stored player yields a player
      that may be stored: nothing out of range, derived fields current. */
  lemma MergeKeepsWellFormed(current: Player, patch: PlayerPatch, yearOf: Millis -> int)
    requires WellFormed(current, yearOf) && Admissible(patch, yearOf)
    ensures WellFormed(Merge(current, patch), yearOf)
    ensures var m := Merge(current, patch); 1 <= m.untilNextLevel <= 100 * (m.level + 1)
  {
    var m := Merge(current, patch);
    LevelUnique(m.experience, m.level, LevelOf(m.experience));
    UntilNextLevelBounds(m.experience);
  }

  /** Applying the same patch twice saves the same record as applying it once. */
  lemma MergeIdempotent(current: Player, patch: PlayerPatch)
    requires ExperienceOk(current.experience)
    requires patch.experience.Some? ==> ExperienceOk(patch.experience.value)
    ensures Merge(Merge(current, patch), patch) == Merge(current, patch)
  {
    var once := Merge(current, patch);
    LevelUnique(once.experience, once.level, Merge(once, patch).level);
  }

  /** A patch that only sets `banned` to true changes nothing else of a
      stored player: level and untilNextLevel come out as before. */
  lemma BanOnlyPatch(current: Player, yearOf: Millis -> int)
    requires WellFormed(current, yearOf)
    ensures Edited(current, EmptyPatch.(banned := Some(true)), yearOf) == Ok(current.(banned := true))
  {
    var m := Merge(current, EmptyPatch.(banned := Some(true)));
    LevelUnique(current.experience, m.level, current.level);
  }

  /** A patch without a `banned` value un-bans the player. */
  lemma NullBannedUnbans(current: Player, patch: PlayerPatch, yearOf: Millis -> int)
    requires ExperienceOk(current.experience) && current.banned
    requires patch.banned.None? && Admissible(patch, yearOf)
    ensures Edited(current, patch, yearOf).Ok? && !Edited(current, patch, yearOf).value.banned
  {
  }

  /** Creating a player with no experience gives level 0 and 100 points to go. */
  lemma NewPlayerWithoutExperience(input: PlayerPatch, yearOf: Millis -> int, id: int)
    requires HasRequired(input) && Admissible(input, yearOf) && input.experience == Some(0)
    ensures NewPlayer(input, yearOf, id).Ok?
    ensures NewPlayer(input, yearOf, id).value.level == 0
    ensures NewPlayer(input, yearOf, id).value.untilNextLevel == 100
  {
    var r := NewPlayer(input, yearOf, id);
    assert r.Ok?;
    assert r.value.experience == 0;
    assert r.value.level == LevelOf(0);
    LevelAtZero();
  }

  /** The players of a store a query selects, keyed by id: the repository's
      `findAll` with the controller's conjunction. */
  function Matching(store: map<int, Player>, q: Query): (r: map<int, Player>)
    ensures r.Keys <= store.Keys
    ensures forall id :: id in r ==> r[id] == store[id]
    ensures forall id :: id in store ==> (id in r <==> MatchesQuery(q, store[id]))
  {
    map id | id in store && Satisfies(Conjunction(q), store[id]) :: store[id]
  }

  /** Cardinality of a subset of a finite set. */
  lemma SubsetCardinality(a: set<int>, b: set<int>)
    requires a <= b
    ensures |a| <= |b|
  {
    var rest := b - a;
    assert b == a + rest;
    assert a * rest == {};
  }

  /** A query selects at most the whole store, and with no parameter all of it. */
  lemma MatchingSize(store: map<int, Player>, q: Query)
    ensures |Matching(store, q)| <= |store|
    ensures q == NoQuery ==> Matching(store, q) == store
  {
    var m := Matching(store, q);
    SubsetCardinality(m.Keys, store.Keys);
    if q == NoQuery {
      NoQueryMatchesAll();
      assert m.Keys == store.Keys;
    }
  }

  /** `GET /players/count`: the number of players the query selects, never
      more than the store holds; with no parameter, all of them. */
  function Count(store: map<int, Player>, q: Query): (n: nat)
    ensures n <= |store|
    ensures q == NoQuery ==> n == |store|
  {
    MatchingSize(store, q);
    |Matching(store, q)|
  }

  /** The setters of `editPlayer` on a copy of the stored player: each
      non-null field of the patch is copied, and `banned` is overwritten
      (false when null). Nothing else changes yet. */
  method CopyPresentFields(stored: Player, patch: PlayerPatch) returns (current: Player)
    ensures current.name == patch.name.GetOr(stored.name)
    ensures current.title == patch.title.GetOr(stored.title)
    ensures current.race == patch.race.GetOr(stored.race)
    ensures current.profession == patch.profession.GetOr(stored.profession)
    ensures current.experience == patch.experience.GetOr(stored.experience)
    ensures current.birthday == patch.birthday.GetOr(stored.birthday)
    ensures current.banned == patch.banned.GetOr(false)
    ensures current.id == stored.id
  {
    current := stored;
    if patch.name.Some? {
      current := current.(name := patch.name.value);
    }
    assert current == stored.(name := patch.name.GetOr(stored.name));
    if patch.title.Some? {
      current := current.(title := patch.title.value);
    }
    ghost var named := current;
    assert named == stored.(name := named.name, title := patch.title.GetOr(stored.title));
    if patch.race.Some? {
      current := current.(race := patch.race.value);
    }
    assert current == named.(race := patch.race.GetOr(stored.race));
    if patch.profession.Some? {
      current := current.(profession := patch.profession.value);
    }
    ghost var classed := current;
    assert classed == named.(race := classed.race, profession := patch.profession.GetOr(stored.profession));
    if patch.experience.Some? {
      current := current.(experience := patch.experience.value);
    }
    assert current == classed.(experience := patch.experience.GetOr(stored.experience));
    if patch.birthday.Some? {
      current := current.(birthday := patch.birthday.value);
    }
    ghost var dated := current;
    assert dated == classed.(experience := dated.experience, birthday := patch.birthday.GetOr(stored.birthday));
    if patch.banned.Some? {
      current := current.(banned := patch.banned.value);
    } else {
      current := current.(banned := false);
    }
    assert current == dated.(banned := patch.banned.GetOr(false));
  }

  /** The whole update of `editPlayer` on a copy of the stored player: the
      present fields are copied, then level and untilNextLevel are
      recomputed from the new experience. The result is the merge. */
  method ApplyPatch(stored: Player, patch: PlayerPatch) returns (current: Player)
    requires ExperienceOk(stored.experience)
    requires patch.experience.Some? ==> ExperienceOk(patch.experience.value)
    ensures current == Merge(stored, patch)
  {
    current := CopyPresentFields(stored, patch);
    current := current.(level := LevelOf(current.experience));
    current := current.(untilNextLevel := UntilNextLevel(current.experience, current.level));
  }

  /** The player service over its repository. `yearOf` is the calendar year
      of a date in the default time zone; `nextId` is the id the repository
      gives the next created player. */
  class PlayerService {
    var store: map<int, Player>
    var nextId: int
    const yearOf: Millis -> int

    /** Every stored player sits under its own id, below `nextId`, and is
        well formed. */
    ghost predicate Valid()
      reads this
    {
      && 1 <= nextId
      && forall id :: id in store ==> 1 <= id < nextId && store[id].id == id && WellFormed(store[id], yearOf)
    }

    /** The service over an injected repository holding `players`, whose
        next generated id is `next`. The repository may be seeded, but every
        player in it must be one the service could have stored. */
    constructor (yearOf: Millis -> int, players: map<int, Player>, next: int)
      requires 1 <= next
      requires forall id :: id in players ==>
                 1 <= id < next && players[id].id == id && WellFormed(players[id], yearOf)
      ensures Valid()
      ensures store == players && nextId == next && this.yearOf == yearOf
    {
      store := players;
      nextId := next;
      this.yearOf := yearOf;
    }

    /** `addPlayer`: validate, derive level and untilNextLevel, default
        `banned`, then save under a fresh id. On failure nothing changes;
        on success no other player changes. */
    method AddPlayer(input: PlayerPatch) returns (r: Result<Player>)
      requires Valid()
      modifies this
      ensures Valid()
      ensures r == NewPlayer(input, yearOf, old(nextId))
      ensures r.Ok? ==> r.value.id !in old(store) && store == old(store)[r.value.id := r.value]
      ensures r.Ok? ==> nextId == old(nextId) + 1
      ensures r.Err? ==> store == old(store) && nextId == old(nextId)
    {
      if input.name.None? || input.title.None? || input.race.None? || input.profession.None?
         || input.experience.None? || input.birthday.None?
      {
        return Err(RequestError(ParamIsNull));
      }
      var check := CheckParam(input, yearOf);
      if check.Fail? {
        return Err(check.error);
      }
      var level := LevelOf(input.experience.value);
      var untilNextLevel := UntilNextLevel(input.experience.value, level);
      var banned := input.banned;
      if banned.None? {
        banned := Some(false);
      }
      var player := Player(nextId, input.name.value, input.title.value, input.race.value,
                           input.profession.value, input.experience.value, level, untilNextLevel,
                           input.birthday.value, banned.value);
      store := store[player.id := player];
      nextId := nextId + 1;
      r := Ok(player);
    }

    /** `getPlayer`: the stored player, or not-found. */
    method GetPlayer(id: int) returns (r: Result<Player>)
      requires Valid()
      ensures id in store ==> r == Ok(store[id])
      ensures id !in store ==> r == Err(NotFound)
      ensures r.Ok? ==> r.value.id == id && WellFormed(r.value, yearOf)
    {
      if id in store {
        r := Ok(store[id]);
      } else {
        r := Err(NotFound);
      }
    }

    /** `editPlayer`: not-found before any validation; then the patch is
        checked and merged field by field into the stored player, which is
        saved back under the same id. No other player changes. */
    method EditPlayer(id: int, patch: PlayerPatch) returns (r: Result<Player>)
      requires Valid()
      modifies this
      ensures Valid() && nextId == old(nextId)
      ensures id !in old(store) ==> r == Err(NotFound)
      ensures id in old(store) ==> r == Edited(old(store)[id], patch, yearOf)
      ensures r.Ok? ==> store == old(store)[id := r.value]
      ensures r.Err? ==> store == old(store)
    {
      if id !in store {
        return Err(NotFound);
      }
      var found := GetPlayer(id);
      var current := found.value;
      ghost var stored := current;
      var check := CheckParam(patch, yearOf);
      if check.Fail? {
        return Err(check.error);
      }
      current := ApplyPatch(current, patch);
      MergeKeepsWellFormed(stored, patch, yearOf);
      store := store[id := current];
      r := Ok(current);
    }

    /** `deletePlayer`: removes exactly that id when present; otherwise
        not-found and the store is left as it was. */
    method DeletePlayer(id: int) returns (r: Outcome)
      requires Valid()
      modifies this
      ensures Valid() && nextId == old(nextId)
      ensures id in old(store) ==> r == Pass && store == old(store) - {id}
      ensures id !in old(store) ==> r == Fail(NotFound) && store == old(store)
    {
      if id in store {
        store := store - {id};
        r := Pass;
      } else {
        r := Fail(NotFound);
      }
    }

    /** `findAll(specification)`: the stored players the query selects. */
    method FindAll(q: Query) returns (r: map<int, Player>)
      requires Valid()
      ensures r == Matching(store, q)
      ensures forall id :: id in r ==> r[id].id == id && WellFormed(r[id], yearOf)
    {
      r := Matching(store, q);
    }
  }
}
