# Star Wars API store: a verified model

This project models the relational store behind a small Flask REST backend
for Star Wars data, and the rules its route handlers apply to it. The store
has three id-keyed tables (users, planets, characters) and two join tables
that record which users have marked which planets and characters as
favourites. The handlers list, add and remove favourites, and create, read,
update and delete planets and characters. Each handler answers with a status
kind (200, 201, 400, 404 or 409) and, on success, changes the store.

Files:

- `models.dfy` (module `Models`) holds the record shapes of `src/models.py`
  and the `serialize` projections. It also states the table constraints:
  unique planet and character names, unique user emails, and join rows that
  reference existing records. A join table is a `set<Link>`, because the
  pair (target id, user id) is the row's whole primary key.
- `handlers.dfy` (module `Handlers`) has one pure function per handler of
  `src/app.py`. Each takes the tables the handler reads and returns the
  status and the new content of the table it writes. The lemmas there relate
  several requests: round trips, conflicts, listings, and the constraints
  kept by any sequence of favourite requests.
- `store.dfy` (module `App`) has the class `Store`. Its fields are the five
  tables, and it has one method per handler. Each method makes the
  handler's checks in the handler's order. Each method that changes the
  store is proved to return the status and new table of the matching
  `Handlers` function, with every other table unchanged. A record delete
  is the one exception: it only removes favourite rows, and it leaves open
  whether the rows that reference the deleted record go. The read methods
  are specified directly by what they list or return. The listing loops of `get_favorite` are the method
  `SerializeAll`. New ids come from `NewId`.

Conventions:

- The status `NotFound` carries the table whose lookup failed. This keeps
  the check order visible: a favourite request looks up the planet or
  character before the user.
- A request body is `Option<PlanetBody>` or `Option<CharacterBody>`.
  `None` means the request carried no JSON data. The body records, for each
  known column, whether the key is present and with what value, and whether
  any other key is present. The handlers' `not data` test is
  `NoPlanetData` / `NoCharacterData`: no data, or an object with no key.
- A new record gets an id above every id in use, as a row-id allocator
  would. The lemmas use only that the id is not in use.
- The favourite listing follows the relationship load, which joins the
  link rows with the target table. So it lists the targets of the user's
  rows that resolve to a record.

## Model

| member | source | states |
|---|---|---|
| `Models.SerializePlanet` | src/models.py:41-48 | a serialised planet has exactly the keys id, name, size, material and population |
| `Models.SerializePlanetInjective` | src/models.py:41-48 | serialisation loses nothing: equal objects come from the same id and the same planet row |
| `Models.SerializeCharacter` | src/models.py:60-67 | a serialised character has exactly the keys id, name, age, genre and affiliation |
| `Models.SerializeCharacterInjective` | src/models.py:60-67 | equal character objects come from the same id and the same character row |
| `Models.UserAttribute` | src/models.py:9-16 | reading any of the seven declared columns id, email, name, lastname, suscription_date, password and is_active gives a value; reading the undeclared `subscription_date` fails |
| `Models.SerializeUserAsWritten` | src/models.py:23-30 | `User.serialize` as written builds its object exactly when the user has an attribute named `subscription_date` |
| `Models.ReadAttributes` | src/models.py:23-30 | building the user object succeeds exactly when every attribute it reads exists |
| `Models.SerializeUserAsWrittenFails` | src/models.py:29 | as written, `User.serialize` fails for every user, because it reads the undeclared attribute `subscription_date` |
| `Models.SerializeUser` | src/models.py:23-30 | the intended user object has exactly id, email, name, lastname and subscription_date, never password or is_active, and its date is the stored `suscription_date` column |
| `Models.EmailsUnique` | src/models.py:11 | no two users share an email |
| `Models.PlanetNamesUnique` | src/models.py:34 | no two planets share a name |
| `Models.CharacterNamesUnique` | src/models.py:52 | no two characters share a name |
| `Models.LinksResolve` | src/models.py:69-81 | every row of a join table references an existing target and an existing user |
| `Handlers.AddFavorite` | src/app.py:150-166 | 404 naming the target table exactly when the target is missing, even if the user is missing too; 404 for the user exactly when the target exists and the user does not; 409 exactly when the pair is already present; 201 exactly when both exist and the pair is new; no other pair changes; the pair is present afterwards iff it was before or the add succeeded (planets: lines 269-285) |
| `Handlers.RemoveFavorite` | src/app.py:170-185 | the same two 404s in the same order; 400 exactly when both exist and the pair is absent; 200 exactly when the pair is present; no other pair changes; the pair is absent after a 200 and unchanged otherwise (planets: lines 290-305) |
| `Handlers.FavoriteIds` | src/app.py:57-63 | the ids listed for a user are exactly the existing targets that the user has a row for |
| `Handlers.EnumeratesCount` | src/app.py:57-63 | a listing that names each id once holds as many entries as there are favourites |
| `Handlers.AddThenRemoveRestores` | src/app.py:159-185 | a successful add followed by a remove of the same pair returns 200 and gives back the original relation |
| `Handlers.RemoveThenAddRestores` | src/app.py:278-305 | a successful remove followed by an add of the same pair returns 201 and gives back the original relation |
| `Handlers.AddTwiceConflicts` | src/app.py:278-281 | for an existing user and target, a second add of the same pair returns 409 and leaves the relation as the first add left it |
| `Handlers.AddShowsInListing` | src/app.py:52-66 | after a successful add the user's listing gains exactly the target, which it did not hold before |
| `Handlers.RemoveHidesFromListing` | src/app.py:52-66 | after a successful remove the user's listing loses exactly the target, which it held before |
| `Handlers.OtherUsersListingUnchanged` | src/app.py:159-181 | adding or removing a favourite never changes another user's listing |
| `Handlers.FavoriteRequestsKeepLinksResolved` | src/models.py:69-81 | add and remove keep every join row pointing at an existing target and user |
| `Handlers.ApplyFavorite` | src/app.py:148-185 | a favourite request never changes the user, planet or character tables, nor the other join table |
| `Handlers.Consistent` | src/models.py:11-81 | the schema constraints together: unique emails, unique planet and character names, and resolving foreign keys in both join tables |
| `Handlers.ReplayKeepsConsistent` | src/models.py:69-81 | any sequence of favourite requests keeps unique emails and names, keeps the foreign keys of both join tables, and leaves the entity tables alone |
| `Handlers.NoPlanetData` | src/app.py:207 | `not data` on a planet body: no body or an empty object, which never carries the fields a create needs (also the update check at line 235) |
| `Handlers.NoCharacterData` | src/app.py:89 | `not data` on a character body: no body or an empty object, which never carries the fields a create needs (also the update check at line 116) |
| `Handlers.PlanetNameTaken` | src/app.py:214-215 | the create's lookup by name finds a planet exactly when some stored planet has that name |
| `Handlers.CharacterNameTaken` | src/app.py:96-97 | the create's lookup by name finds a character exactly when some stored character has that name |
| `Handlers.PlanetFromBody` | src/app.py:210-223 | a create body yields a planet exactly when name, size, material and population are all present, and the new planet takes the body's name |
| `Handlers.CharacterFromBody` | src/app.py:92-105 | a create body yields a character exactly when name, age, genre and affiliation are all present, and the new character takes the body's name |
| `Handlers.CreatePlanet` | src/app.py:205-227 | 400 exactly when there is no data or a required field is missing; 409 exactly when the fields are there and the name is in use; otherwise 201 and the planet is stored under the new id; the table is unchanged on failure |
| `Handlers.CreateCharacter` | src/app.py:87-109 | the same rules for characters, including the 400 and 409 cases and an unchanged table on failure |
| `Handlers.CreatePlanetKeepsTable` | src/app.py:214-225 | a successful create under an unused id adds one key, keeps every existing planet, and keeps planet names unique |
| `Handlers.CreateCharacterKeepsTable` | src/app.py:96-107 | a successful create under an unused id adds one key, keeps every existing character, and keeps character names unique |
| `Handlers.MergePlanet` | src/app.py:242-249 | a planet column present in the update body is overwritten with the body's value; every other column keeps its value |
| `Handlers.MergeCharacter` | src/app.py:123-130 | a character column present in the update body is overwritten; every other column keeps its value |
| `Handlers.MergePlanetProperties` | src/app.py:242-249 | repeating an update changes nothing more; a body with all four fields gives the planet a create would build; a body with no known field leaves the planet as it was |
| `Handlers.MergeCharacterProperties` | src/app.py:123-130 | the same three facts for character updates |
| `Handlers.ModifyPlanet` | src/app.py:231-253 | 400 exactly when there is no data, whatever the id; 404 exactly when there is data and the id is unknown; otherwise 200 and only that planet changes, by the merge |
| `Handlers.ModifyCharacter` | src/app.py:112-134 | the same rules for characters |
| `Handlers.DeleteRecord` | src/app.py:256-264 | 404 exactly when the id is unknown, else 200; afterwards the id is gone and every other record is unchanged (characters: lines 137-145) |
| `Handlers.CreateThenDeletePlanet` | src/app.py:204-264 | creating a planet under an unused id and deleting it again gives back the original table |
| `Handlers.CreateThenDeleteCharacter` | src/app.py:86-145 | creating a character under an unused id and deleting it again gives back the original table |
| `Handlers.DeleteKeepsNamesUnique` | src/models.py:34 | deleting a planet or character keeps names unique |
| `App.NewId` | src/models.py:33 | a new row's id is positive and above, so distinct from, every id in use |
| `App.SerializeAll` | src/app.py:57-63 | the listing loop emits one serialised record per id, each id exactly once |
| `App.Store.GetFavorites` | src/app.py:52-66 | 404 exactly when the user is unknown; otherwise 200 with every favourite planet and character of the user serialised once each; the store is not modified |
| `App.Store.PostPlanetFavorite` | src/app.py:269-285 | returns the status and new planet links of `AddFavorite`, changes nothing else, and keeps the schema constraints |
| `App.Store.DeletePlanetFavorite` | src/app.py:290-305 | returns the status and new planet links of `RemoveFavorite`, changes nothing else, and keeps the schema constraints |
| `App.Store.PostCharacterFavorite` | src/app.py:150-166 | returns the status and new character links of `AddFavorite`, changes nothing else, and keeps the schema constraints |
| `App.Store.DeleteCharacterFavorite` | src/app.py:170-185 | returns the status and new character links of `RemoveFavorite`, changes nothing else, and keeps the schema constraints |
| `App.Store.GetAllUsers` | src/app.py:40-47 | every user serialised exactly once, with the intended serialiser |
| `App.Store.GetAllPlanets` | src/app.py:188-193 | every planet serialised exactly once |
| `App.Store.GetAllCharacters` | src/app.py:69-75 | every character serialised exactly once |
| `App.Store.GetPlanet` | src/app.py:195-202 | 404 exactly when the id is unknown, else 200 with that planet serialised |
| `App.Store.GetCharacter` | src/app.py:77-84 | 404 exactly when the id is unknown, else 200 with that character serialised |
| `App.Store.CreatePlanet` | src/app.py:204-227 | follows `Handlers.CreatePlanet` under an id not in use and returns the new planet serialised; only the planet table changes; the schema constraints are kept |
| `App.Store.CreateCharacter` | src/app.py:86-109 | follows `Handlers.CreateCharacter` under an id not in use and returns the new character serialised; only the character table changes; the schema constraints are kept |
| `App.Store.ModifyPlanet` | src/app.py:230-253 | follows `Handlers.ModifyPlanet`, assigning the present fields one by one, and returns the updated planet serialised; only the planet table changes |
| `App.Store.ModifyCharacter` | src/app.py:111-134 | follows `Handlers.ModifyCharacter` and returns the updated character serialised; only the character table changes |
| `App.Store.DeletePlanet` | src/app.py:255-264 | follows `DeleteRecord` on the planet table; the user and character tables and the character favourites are unchanged; planet favourites are only removed, never added, and every planet favourite of another planet is kept |
| `App.Store.DeleteCharacter` | src/app.py:136-145 | follows `DeleteRecord` on the character table; the user and planet tables and the planet favourites are unchanged; character favourites are only removed, never added, and every character favourite of another character is kept |

## Left out

- Application wiring is not modelled: Flask setup, the database URL, migrations, CORS, the admin UI, the error handler, the sitemap and the `__main__` runner (src/app.py:1-37, src/app.py:308-311). It is I/O plumbing.
- Sessions, `commit`, `select` queries and JSON encoding are not modelled. Lookups are map membership, inserts and deletes are map updates, and commit is the end of the method.
- Concurrency is not modelled. A store method runs as one step, so the race between the membership check and the insert does not arise.
- Message texts are not modelled; a status carries only the error kind and, for 404, the table whose lookup failed.
- A request whose JSON is not an object (a list, a string, a number) is not modelled, and neither is a failing `get_json` call. Field values are typed by the body types, so a value of the wrong JSON type is not modelled.
- Column limits are not modelled: the 32-bit `Integer` and 64-bit `BigInteger` ranges and the 120-character `String` length. The handlers do not check them; only the database would reject them.
- The order of listings is not modelled, because join tables are sets. A listing names each favourite exactly once, in some order.
- The ISO-8601 formatting of the subscription date is not modelled. The date is an opaque `JTime` value.
- The user table is read-only here, because the core has no handler that creates, changes or deletes users.
- `scalar_one_or_none` raising on two records with one name is not modelled. The unique constraint makes that state unreachable in the running system.
- App.Store.ModifyPlanet: does not check that the new name is unused, like the handler. The unique column would make the commit fail with an uncaught database error, which is not modelled, so name uniqueness is not claimed after an update.
- Handlers.ModifyPlanet: returns 200 on a rename that collides with another planet's name, for the same reason as `App.Store.ModifyPlanet`.
- App.Store.ModifyCharacter: does not check that the new name is unused, for the same reason as `ModifyPlanet`.
- Handlers.ModifyCharacter: returns 200 on a rename that collides with another character's name, for the same reason.
- App.Store.DeletePlanet: does not say whether the favourite rows that reference the deleted planet are removed; it only promises that no row is added and that rows of other planets stay. Whether they are removed depends on ORM cascade behaviour that the handler does not show. For the same reason the foreign-key constraint is not claimed after a delete.
- App.Store.DeleteCharacter: does not say whether the favourite rows that reference the deleted character are removed, for the same reason; it too only promises that no row is added and that rows of other characters stay.
- Handlers.DeleteRecord: says nothing about the join tables, for the same reason.
- Models.UserAttribute: models only the column attributes of `User` and the undeclared `subscription_date`. The relationship attributes `FavoritePlanet` and `FavoriteCharacter` and the method `serialize` are not JSON values, so no claim is made about other names.

## Findings

| source | as written | input that shows it | evidently intended | confidence | as-written member | corrected member |
|---|---|---|---|---|---|---|
| src/models.py:29 | `User.serialize` reads `self.subscription_date`, but the column is declared as `suscription_date` (src/models.py:14), so the read raises AttributeError | any stored user, so `GET /users` fails whenever the user table is non-empty | read the declared `suscription_date` column and emit it under the key `subscription_date` | high, not executed | `Models.SerializeUserAsWritten`, shown failing for every user by `Models.SerializeUserAsWrittenFails` | `Models.SerializeUser`, used by `App.Store.GetAllUsers` |
