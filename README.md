# Player service of rpg-javarush, modelled in Dafny

The service keeps one kind of record, a *player*. A player has a name and a title, a race and a
profession, experience, and a birthday, and it may be banned. Two further fields, `level` and
`untilNextLevel`, are derived from the experience. `ServiceImpl` does five things:

- validates the request body;
- computes the derived fields;
- builds the eight query filters;
- checks the identifier taken from the path;
- creates, reads, partially updates and deletes players in a repository.

The controller joins the eight filters with AND, both to list players and to count them.

The model has seven modules:

- `Common`: a nullable value (`Option`) and the two exceptions. `RequestError` carries one reason
  per message, so the order of the checks is visible. The other exception is `NotFound`.
- `Entity`: the stored `Player`, and `PlayerPatch`. A patch is a request body in which every field
  may be null.
- `Level`: `calculateLevel` and `calculateUntilNextLevel`, over an exact integer square root. The
  level is characterised independently by its bracket `50·L·(L+1) ≤ exp < 50·(L+1)·(L+2)`
  (`IsLevel`). Uniqueness, monotonicity, the bounds of `untilNextLevel` and the absence of `int`
  overflow are proved from it.
- `Validation`: `checkParam`, the null check of creation, and `WellFormed`. `WellFormed` is the
  shape every stored player keeps.
- `Filters`: the eight `filterBy*` functions. Each returns `None` (the JPA `null` predicate) or a
  criterion whose meaning is `Holds`. The controller's conjunction is proved equal to a
  parameter-by-parameter description of the query (`MatchesQuery`).
- `Ids`: `checkId` over a model of `Long.parseLong`. The round trip is proved in both directions:
  printing then parsing gives the number back, and an accepted string is a sign and digits that
  spell the parsed value.
- `Service`: the reference definitions of creation (`NewPlayer`) and of the update merge (`Merge`,
  `Edited`), and the setter sequence of `editPlayer` proved equal to the merge. It also holds
  the class `PlayerService`, whose repository is a `map` from id to player. `AddPlayer`, `EditPlayer` and `DeletePlayer` change that map. All of them keep the
  invariant `Valid()`: every stored player is `WellFormed`, sits under its own id, and has an id
  below the next fresh one.

Two edge cases of the code are worth stating outright, and the model keeps both as written:

- Birthday years 2000 and 3000 are both accepted: only `year < 2000 || year > 3000` is refused.
- `checkId` accepts any string that `Long.parseLong` reads, other than `""` and `"0"`. So `"-5"`,
  `"00"` and `"-0"` are accepted. The explicit refusal of `"0"` suggests only positive
  identifiers were meant; see "## Findings".

## Model

| member | source | states |
|---|---|---|
| `Level.Isqrt` | src/main/java/com/game/service/ServiceImpl.java:145 | the integer square root: `r·r ≤ n < (r+1)·(r+1)`. It stands in for `Math.sqrt` followed by the `(int)` cast |
| `Level.LevelOf` | src/main/java/com/game/service/ServiceImpl.java:144-147 | `calculateLevel` of a validated experience lies in the level bracket `50·L·(L+1) ≤ exp < 50·(L+1)·(L+2)` and is at most 446 |
| `Level.LevelUnique` | src/main/java/com/game/service/ServiceImpl.java:144-147 | at most one level fits an experience, so the bracket determines `calculateLevel` |
| `Level.LevelMonotone` | src/main/java/com/game/service/ServiceImpl.java:144-147 | the level is non-negative and never decreases as experience grows |
| `Level.UntilNextLevel` | src/main/java/com/game/service/ServiceImpl.java:149-152 | for an experience in the bracket of `level`, the result lies in `[1, 100·(level+1)]`; adding it to the experience reaches level `level+1`, and adding one point less does not |
| `Level.UntilNextLevelBounds` | src/main/java/com/game/service/ServiceImpl.java:149-152 | `untilNextLevel` computed after the level lies in `[1, 100·(level+1)]` |
| `Level.LevelAtZero` | src/main/java/com/game/service/ServiceImpl.java:144-152 | experience 0 gives level 0 and `untilNextLevel` 100 |
| `Level.LevelArithmeticFitsInt` | src/main/java/com/game/service/ServiceImpl.java:145-150 | `2500 + 200·exp` and `50·(L+1)·(L+2)` stay within `Integer.MAX_VALUE` for every validated experience |
| `Validation.CheckParam` | src/main/java/com/game/service/ServiceImpl.java:124-142 | passes exactly when every present field is in range: name length in [1,12], title length in [1,30], experience in [0,10,000,000], birthday year in [2000,3000]. Absent fields always pass. The error names the first failing field in the order name, title, experience, birthday |
| `Validation.CheckParamAbsentFieldsPass` | src/main/java/com/game/service/ServiceImpl.java:124-142 | nulling any field of a passing body still passes; the all-null body passes |
| `Validation.LongNameRefused` | src/main/java/com/game/service/ServiceImpl.java:125-127 | a name of 13 characters is refused with the name error |
| `Validation.WellFormedPassesChecks` | src/main/java/com/game/service/ServiceImpl.java:42-56 | a stored player read back as a body passes both creation checks, and its level and `untilNextLevel` lie in their brackets |
| `Filters.ContainsIffOccurs` | src/main/java/com/game/service/ServiceImpl.java:159 | the substring test behind `like '%s%'` holds exactly when `s` occurs at some index |
| `Filters.ContainsEmpty` | src/main/java/com/game/service/ServiceImpl.java:159 | an empty search string matches every text |
| `Filters.FilterByRange` | src/main/java/com/game/service/ServiceImpl.java:181-197 | gives no constraint exactly when both bounds are null. Otherwise it holds exactly when the value is `≥` the lower bound if present and `≤` the upper bound if present. This covers the `<=`, `>=` and inclusive `between` branches |
| `Filters.FilterByName` | src/main/java/com/game/service/ServiceImpl.java:156-160 | gives no constraint exactly when the name is null; otherwise it holds exactly when the player's name contains it |
| `Filters.FilterByTitle` | src/main/java/com/game/service/ServiceImpl.java:162-166 | gives no constraint exactly when the title is null; otherwise it holds exactly when the player's title contains it |
| `Filters.FilterByRace` | src/main/java/com/game/service/ServiceImpl.java:168-172 | gives no constraint exactly when the race is null; otherwise it holds exactly when the race is equal |
| `Filters.FilterByProfession` | src/main/java/com/game/service/ServiceImpl.java:174-178 | gives no constraint exactly when the profession is null; otherwise it holds exactly when the profession is equal |
| `Filters.FilterByBirthday` | src/main/java/com/game/service/ServiceImpl.java:180-197 | gives no constraint exactly when `after` and `before` are both null; otherwise it holds exactly when `after ≤ birthday` (if given) and `birthday ≤ before` (if given) |
| `Filters.FilterByBanned` | src/main/java/com/game/service/ServiceImpl.java:199-211 | gives no constraint exactly when `banned` is null; otherwise `isTrue`/`isFalse` holds exactly when the flag is equal |
| `Filters.FilterByExperience` | src/main/java/com/game/service/ServiceImpl.java:213-225 | gives no constraint exactly when both bounds are null; otherwise it holds exactly when the experience is within the given bounds, both ends included |
| `Filters.FilterByLevel` | src/main/java/com/game/service/ServiceImpl.java:227-239 | gives no constraint exactly when both bounds are null; otherwise it holds exactly when the level is within the given bounds, both ends included |
| `Filters.InvertedRangeMatchesNothing` | src/main/java/com/game/service/ServiceImpl.java:223 | a `between` whose lower bound exceeds the upper one matches no player |
| `Filters.Conjunction` | src/main/java/com/game/controller/PlayerController.java:44-51 | the eight filters in the controller's order; a player satisfies their AND, with null predicates dropped, exactly when each present query parameter accepts it |
| `Filters.ConjunctionSound` | src/main/java/com/game/controller/PlayerController.java:44-51 | a player the joined filters accept meets every present query parameter |
| `Filters.ConjunctionComplete` | src/main/java/com/game/controller/PlayerController.java:44-51 | a player meeting every present query parameter passes every non-null filter |
| `Filters.ConjunctionMeaning` | src/main/java/com/game/controller/PlayerController.java:44-51 | both directions together: the joined filters accept a player exactly when the query describes it |
| `Filters.ConjunctionMeaningAll` | src/main/java/com/game/controller/PlayerController.java:69-76 | the same equivalence for every player at once, as the count query uses it |
| `Filters.NoQueryMatchesAll` | src/main/java/com/game/controller/PlayerController.java:44-51 | with every parameter absent, every player is selected |
| `Filters.MinExperienceExcludesBelow` | src/main/java/com/game/service/ServiceImpl.java:220-223 | a lower experience bound excludes every player below it |
| `Ids.ParseLong` | src/main/java/com/game/service/ServiceImpl.java:247 | a value `Long.parseLong` accepts lies in the `long` range and comes from a nonempty string |
| `Ids.ParseLongSpelling` | src/main/java/com/game/service/ServiceImpl.java:247 | an accepted string is an optional sign then at least one digit; `-` gives a value ≤ 0 and otherwise the value is ≥ 0; the digits without leading zeros are the canonical decimal form of the magnitude, or empty for 0 |
| `Ids.ParseLongSpellings` | src/main/java/com/game/service/ServiceImpl.java:247 | `"+5"` reads 5, `"007"` reads 7 and `"-0"` reads 0; `"-"` and `"+-5"` are refused |
| `Ids.StripZerosValue` | src/main/java/com/game/service/ServiceImpl.java:247 | leading zeros do not change the value `Long.parseLong` reads |
| `Ids.CanonicalDecimal` | src/main/java/com/game/service/ServiceImpl.java:247 | a digit string without a leading zero is exactly the canonical decimal form of its value |
| `Ids.CheckId` | src/main/java/com/game/service/ServiceImpl.java:242-253 | accepts exactly a non-null string other than `""` and `"0"` that `Long.parseLong` accepts, and yields the parsed value; every refusal is the id error |
| `Ids.ToDecimalRoundTrip` | src/main/java/com/game/service/ServiceImpl.java:247 | reading back the canonical decimal form of `n` yields `n`; the form is all digits and has no leading zero |
| `Ids.CheckIdPositiveRoundTrip` | src/main/java/com/game/service/ServiceImpl.java:242-253 | every positive `long` in decimal form is accepted and yields itself |
| `Ids.CheckIdNegativeRoundTrip` | src/main/java/com/game/service/ServiceImpl.java:242-253 | every negative `long` in signed decimal form is accepted and yields itself |
| `Ids.CheckIdRefusals` | src/main/java/com/game/service/ServiceImpl.java:243-245 | null, `""`, `"0"` and `"abc"` are refused with the id error |
| `Ids.CheckIdAcceptsNonPositive` | src/main/java/com/game/service/ServiceImpl.java:242-253 | as written, `"-5"` yields -5 and `"00"` yields 0 |
| `Ids.CheckPositiveId` | src/main/java/com/game/service/ServiceImpl.java:242-253 | the corrected check accepts only identifiers ≥ 1 and agrees with `checkId` on every positive one |
| `Ids.CheckPositiveIdRefusesNonPositive` | src/main/java/com/game/service/ServiceImpl.java:242-253 | the corrected check refuses `"-5"` and `"00"` and still accepts every positive `long` |
| `Service.NewPlayer` | src/main/java/com/game/service/ServiceImpl.java:41-59 | a null required field fails with the null error before any range check. Otherwise the body fails `checkParam` or is stored with the fresh id, its six fields copied, `banned` defaulting to false, level and `untilNextLevel` derived from the experience, and the record `WellFormed` |
| `Service.NewPlayerWithoutExperience` | src/main/java/com/game/service/ServiceImpl.java:49-53 | creating a player with experience 0 gives level 0 and `untilNextLevel` 100 |
| `Service.CopyPresentFields` | src/main/java/com/game/service/ServiceImpl.java:82-104 | the setters: each non-null patch field among name, title, race, profession, experience and birthday replaces the stored one; `banned` takes the patch value or false; the id is kept |
| `Service.ApplyPatch` | src/main/java/com/game/service/ServiceImpl.java:82-110 | the setters followed by the recomputation of level and `untilNextLevel` yield exactly `Merge` of the stored player and the patch |
| `Service.Merge` | src/main/java/com/game/service/ServiceImpl.java:82-110 | each non-null patch field among name, title, race, profession, experience and birthday replaces the stored one. `banned` becomes the patch value, or false. The id is kept, and the level is recomputed into the bracket of the merged experience |
| `Service.Edited` | src/main/java/com/game/service/ServiceImpl.java:79-112 | the update fails exactly when the patch, not the merged record, fails `checkParam`, with that error; otherwise it is the merge |
| `Service.MergeKeepsWellFormed` | src/main/java/com/game/service/ServiceImpl.java:79-112 | merging an admissible patch into a stored player yields a storable player |
| `Service.MergeIdempotent` | src/main/java/com/game/service/ServiceImpl.java:82-110 | applying the same patch twice saves the same record as applying it once |
| `Service.BanOnlyPatch` | src/main/java/com/game/service/ServiceImpl.java:82-110 | a patch that only sets `banned` to true changes only the flag; level and `untilNextLevel` come out unchanged |
| `Service.NullBannedUnbans` | src/main/java/com/game/service/ServiceImpl.java:100-104 | a patch without `banned` un-bans a banned player |
| `Service.Matching` | src/main/java/com/game/service/ServiceImpl.java:34-37 | the players a query selects: a sub-map of the repository holding exactly the stored players the query accepts |
| `Service.MatchingSize` | src/main/java/com/game/controller/PlayerController.java:69-76 | a query selects at most the whole repository, and with no parameter all of it |
| `Service.Count` | src/main/java/com/game/controller/PlayerController.java:69-76 | the count never exceeds the number of stored players and equals it when no parameter is given |
| `Service.PlayerService.constructor` | src/main/java/com/game/service/ServiceImpl.java:24-26 | the service over an injected repository, which may already hold players; given that every player in it is well formed under its own id below the next generated id, the invariant holds |
| `Service.PlayerService.AddPlayer` | src/main/java/com/game/service/ServiceImpl.java:41-59 | the result is `NewPlayer` with the next fresh id. On success only that new id is added and no existing record changes; on failure the repository is unchanged. The invariant is kept |
| `Service.PlayerService.GetPlayer` | src/main/java/com/game/service/ServiceImpl.java:62-70 | returns the stored player of a present id, which is `WellFormed`; otherwise not-found |
| `Service.PlayerService.EditPlayer` | src/main/java/com/game/service/ServiceImpl.java:73-114 | an absent id gives not-found before any validation. Otherwise the result is `Edited` of the stored player; on success only that id is rewritten, on failure nothing changes. The invariant is kept |
| `Service.PlayerService.DeletePlayer` | src/main/java/com/game/service/ServiceImpl.java:116-122 | a present id is removed and nothing else changes; an absent id gives not-found and leaves the repository unchanged |
| `Service.PlayerService.FindAll` | src/main/java/com/game/service/ServiceImpl.java:34-37 | returns the players the query selects, each stored under its own id and `WellFormed` |

## Findings

| source | as written | input that shows it | evidently intended | confidence | as-written member | corrected member |
|---|---|---|---|---|---|---|
| src/main/java/com/game/service/ServiceImpl.java:242-253 | `checkId` refuses only null, `""` and `"0"` before `Long.parseLong`, so every other spelling of zero or of a negative number is accepted | `"-5"` yields -5 and `"00"` yields 0; a later lookup then answers not-found instead of refusing the request | only positive identifiers are accepted, as the explicit refusal of `"0"` suggests | medium, not executed | `Ids.CheckIdAcceptsNonPositive` | `Ids.CheckPositiveId` |

The service operations of the model take an identifier that is already parsed. So the corrected
check changes no other member.

## Left out

- HTTP routing, request binding, status codes and the `System.out.println` of the controller are
  framework plumbing. Only the AND-composition of the filters is modelled (`Filters.Conjunction`).
- Paging and sorting (`PageRequest`, `Sort`, `Page.getContent`, the paged `findAll`) are not
  modelled. The sort keys of `PlayerOrder` are not part of this model. `Service.Matching` is the
  unpaged result set.
- The JPA Criteria API is modelled by its meaning only (`Filters.Holds`). `like` is plain substring
  containment: wildcard characters inside the search string and collation-dependent case rules are
  not modelled.
- `Calendar`, the default time zone and `Date`: a birthday is its epoch milliseconds. The calendar
  year comes from the function `yearOf`, which the service is constructed with.
- `Math.sqrt` in floating point is replaced by the exact integer square root. The argument is at
  most 2,000,002,500, far below 2^53, so the two agree there.
- Level.LevelOf: defined only for experience in [0, 10,000,000]. The service only ever passes it a
  validated or stored experience. The source's value for other inputs (a NaN cast to 0) is not
  modelled.
- Id generation (`@GeneratedValue`): a new player takes the counter `nextId`, which grows by one. A
  client-supplied id in the body of `addPlayer` is ignored. JPA's merge of an entity that already
  carries an id is not modelled, and `long` overflow of the counter is not either.
- Service.PlayerService.constructor: the injected repository must hold only players this service
  could have stored (well formed, under their own id, below the next generated id). Rows written
  to the database by other means, violating those ranges, are not modelled; the guarantees of
  `GetPlayer`, `FindAll` and `EditPlayer` rely on this.
- Transactions, managed entities and concurrent requests are not modelled. `editPlayer` updates a
  copy of the record and writes it back, and its `existsById`/`getPlayer` pair is one lookup.
- Java `String.length()` counts UTF-16 code units; the model counts characters.
- `Long.parseLong` also accepts non-ASCII Unicode decimal digits. The model accepts ASCII digits only.
- Java `Integer` fields are unbounded integers here. JSON binding refuses values outside `int`
  before the service runs. Inside the service the arithmetic cannot overflow (`Level.LevelArithmeticFitsInt`).
- The `Race` and `Profession` enumerations are not part of this model. Their constants are
  identified by position.
- `Player.java` accessors, `ServicePlayer.java` and `PlayerRepository.java` are declarations only.
  Their content is the field list (`Entity.Player`) and the repository (the `store` map).
