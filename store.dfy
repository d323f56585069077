/** The store the route handlers share: the three id-keyed tables and the
    two favourite join tables, updated in place by one method per handler.
    Each method makes the handler's checks in the handler's order; each
    method that changes the store is proved to give the status and the new
    tables of the matching rule in module Handlers, with every other table
    unchanged. A record delete only removes favourite rows, and leaves open
    whether the rows that reference the deleted record go. */
module App {
  import opened Models
  import opened Handlers

  /** A non-empty set has an element to pick. */
  lemma NonEmptyHasElement(s: set<int>)
    requires s != {}
    ensures exists x :: x in s
  {
    if forall x :: x !in s {
      assert false;
    }
  }

  /** An id for a new row: positive and above every id in use, as a
      row-id allocator hands out. */
  method NewId(keys: set<int>) returns (id: int)
    ensures id > 0 && id !in keys
    ensures forall k :: k in keys ==> k < id
  {
    id := 1;
    var rest := keys;
    while rest != {}
      invariant rest <= keys
      invariant id > 0
      invariant forall k :: k in keys && k !in rest ==> k < id
      decreases |rest|
    {
      NonEmptyHasElement(rest);
      var k: int :| k in rest;
      if k >= id {
        id := k + 1;
      }
      rest := rest - {k};
    }
  }

  /** The `for` loops of `get_favorite` (and the projections of the list
      handlers): one serialised record per id, each id exactly once. */
  method SerializeAll<T>(table: map<int, T>, ids: set<int>, serialize: (int, T) -> Object)
    returns (out: seq<Object>, ghost order: seq<int>)
    requires ids <= table.Keys
    ensures Enumerates(out, order, table, ids, serialize)
    ensures |out| == |ids|
    ensures forall id :: id in ids ==> serialize(id, table[id]) in out
  {
    out, order := [], [];
    var rest := ids;
    while rest != {}
      invariant rest <= ids
      invariant |out| == |order|
      invariant forall j :: 0 <= j < |order| ==>
                  order[j] in ids && order[j] !in rest && out[j] == serialize(order[j], table[order[j]])
      invariant forall id :: id in ids ==> id in order || id in rest
      invariant forall i, j :: 0 <= i < j < |order| ==> order[i] != order[j]
      decreases |rest|
    {
      NonEmptyHasElement(rest);
      var id: int :| id in rest;
      out := out + [serialize(id, table[id])];
      order := order + [id];
      rest := rest - {id};
    }
    EnumeratesCount(out, order, table, ids, serialize);
  }

  class Store {
    var users: map<int, User>
    var planets: map<int, Planet>
    var characters: map<int, Character>
    var favoritePlanets: set<Link>
    var favoriteCharacters: set<Link>

    /** The whole store as a value. */
    function State(): Db
      reads this
    {
      Db(users, planets, characters, favoritePlanets, favoriteCharacters)
    }

    constructor (db: Db)
      ensures State() == db
    {
      users := db.users;
      planets := db.planets;
      characters := db.characters;
      favoritePlanets := db.favoritePlanets;
      favoriteCharacters := db.favoriteCharacters;
    }

    // -------------------------------------------------------------------
    // Favourites

    /** `get_favorite`: an unknown user is not found; otherwise every
        favourite planet and character of the user, serialised, and the
        store untouched. */
    method GetFavorites(uid: int)
      returns (status: Status, planetList: seq<Object>, characterList: seq<Object>,
               ghost planetOrder: seq<int>, ghost characterOrder: seq<int>)
      ensures status == NotFound(UserTable) <==> uid !in users
      ensures status == Ok <==> uid in users
      ensures status == Ok ==>
                Enumerates(planetList, planetOrder, planets,
                           FavoriteIds(favoritePlanets, planets, uid), SerializePlanet)
      ensures status == Ok ==>
                Enumerates(characterList, characterOrder, characters,
                           FavoriteIds(favoriteCharacters, characters, uid), SerializeCharacter)
    {
      if uid !in users {
        return NotFound(UserTable), [], [], [], [];
      }
      planetList, planetOrder := SerializeAll(planets, FavoriteIds(favoritePlanets, planets, uid), SerializePlanet);
      characterList, characterOrder :=
        SerializeAll(characters, FavoriteIds(favoriteCharacters, characters, uid), SerializeCharacter);
      status := Ok;
    }

    /** `post_planet_favorite`. */
    method PostPlanetFavorite(uid: int, pid: int) returns (status: Status)
      modifies this
      ensures (status, favoritePlanets) ==
              AddFavorite(old(users), old(planets), PlanetTable, old(favoritePlanets), uid, pid)
      ensures users == old(users) && planets == old(planets) && characters == old(characters)
      ensures favoriteCharacters == old(favoriteCharacters)
      ensures Consistent(old(State())) ==> Consistent(State())
    {
      if LinksResolve(favoritePlanets, planets, users) {
        FavoriteRequestsKeepLinksResolved(users, planets, PlanetTable, favoritePlanets, uid, pid);
      }
      if pid !in planets {
        return NotFound(PlanetTable);
      }
      if uid !in users {
        return NotFound(UserTable);
      }
      if Link(pid, uid) in favoritePlanets {
        return Conflict;
      }
      favoritePlanets := favoritePlanets + {Link(pid, uid)};
      status := Created;
    }

    /** `delete_planet_favorite`. */
    method DeletePlanetFavorite(uid: int, pid: int) returns (status: Status)
      modifies this
      ensures (status, favoritePlanets) ==
              RemoveFavorite(old(users), old(planets), PlanetTable, old(favoritePlanets), uid, pid)
      ensures users == old(users) && planets == old(planets) && characters == old(characters)
      ensures favoriteCharacters == old(favoriteCharacters)
      ensures Consistent(old(State())) ==> Consistent(State())
    {
      if LinksResolve(favoritePlanets, planets, users) {
        FavoriteRequestsKeepLinksResolved(users, planets, PlanetTable, favoritePlanets, uid, pid);
      }
      if pid !in planets {
        return NotFound(PlanetTable);
      }
      if uid !in users {
        return NotFound(UserTable);
      }
      if Link(pid, uid) !in favoritePlanets {
        return BadRequest;
      }
      favoritePlanets := favoritePlanets - {Link(pid, uid)};
      status := Ok;
    }

    /** `post_character_favorite`. */
    method PostCharacterFavorite(uid: int, cid: int) returns (status: Status)
      modifies this
      ensures (status, favoriteCharacters) ==
              AddFavorite(old(users), old(characters), CharacterTable, old(favoriteCharacters), uid, cid)
      ensures users == old(users) && planets == old(planets) && characters == old(characters)
      ensures favoritePlanets == old(favoritePlanets)
      ensures Consistent(old(State())) ==> Consistent(State())
    {
      if LinksResolve(favoriteCharacters, characters, users) {
        FavoriteRequestsKeepLinksResolved(users, characters, CharacterTable, favoriteCharacters, uid, cid);
      }
      if cid !in characters {
        return NotFound(CharacterTable);
      }
      if uid !in users {
        return NotFound(UserTable);
      }
      if Link(cid, uid) in favoriteCharacters {
        return Conflict;
      }
      favoriteCharacters := favoriteCharacters + {Link(cid, uid)};
      status := Created;
    }

    /** `delete_character_favorite`. */
    method DeleteCharacterFavorite(uid: int, cid: int) returns (status: Status)
      modifies this
      ensures (status, favoriteCharacters) ==
              RemoveFavorite(old(users), old(characters), CharacterTable, old(favoriteCharacters), uid, cid)
      ensures users == old(users) && planets == old(planets) && characters == old(characters)
      ensures favoritePlanets == old(favoritePlanets)
      ensures Consistent(old(State())) ==> Consistent(State())
    {
      if LinksResolve(favoriteCharacters, characters, users) {
        FavoriteRequestsKeepLinksResolved(users, characters, CharacterTable, favoriteCharacters, uid, cid);
      }
      if cid !in characters {
        return NotFound(CharacterTable);
      }
      if uid !in users {
        return NotFound(UserTable);
      }
      if Link(cid, uid) !in favoriteCharacters {
        return BadRequest;
      }
      favoriteCharacters := favoriteCharacters - {Link(cid, uid)};
      status := Ok;
    }

    // -------------------------------------------------------------------
    // Lists and lookups

    /** `get_all_users`, with the serialiser reading the declared
        `suscription_date` column. */
    method GetAllUsers() returns (list: seq<Object>, ghost order: seq<int>)
      ensures Enumerates(list, order, users, users.Keys, SerializeUser)
      ensures |list| == |users|
      ensures forall id :: id in users ==> SerializeUser(id, users[id]) in list
    {
      list, order := SerializeAll(users, users.Keys, SerializeUser);
    }

    /** `get_all_planets`. */
    method GetAllPlanets() returns (list: seq<Object>, ghost order: seq<int>)
      ensures Enumerates(list, order, planets, planets.Keys, SerializePlanet)
      ensures |list| == |planets|
      ensures forall id :: id in planets ==> SerializePlanet(id, planets[id]) in list
    {
      list, order := SerializeAll(planets, planets.Keys, SerializePlanet);
    }

    /** `get_all_characters`. */
    method GetAllCharacters() returns (list: seq<Object>, ghost order: seq<int>)
      ensures Enumerates(list, order, characters, characters.Keys, SerializeCharacter)
      ensures |list| == |characters|
      ensures forall id :: id in characters ==> SerializeCharacter(id, characters[id]) in list
    {
      list, order := SerializeAll(characters, characters.Keys, SerializeCharacter);
    }

    /** `get_planet`: the serialised record, or not found. */
    method GetPlanet(id: int) returns (status: Status, body: Option<Object>)
      ensures status == NotFound(PlanetTable) <==> id !in planets
      ensures status == Ok <==> id in planets
      ensures status == Ok ==> body == Some(SerializePlanet(id, planets[id]))
      ensures status != Ok ==> body == None
    {
      if id !in planets {
        return NotFound(PlanetTable), None;
      }
      return Ok, Some(SerializePlanet(id, planets[id]));
    }

    /** `get_character`: the serialised record, or not found. */
    method GetCharacter(id: int) returns (status: Status, body: Option<Object>)
      ensures status == NotFound(CharacterTable) <==> id !in characters
      ensures status == Ok <==> id in characters
      ensures status == Ok ==> body == Some(SerializeCharacter(id, characters[id]))
      ensures status != Ok ==> body == None
    {
      if id !in characters {
        return NotFound(CharacterTable), None;
      }
      return Ok, Some(SerializeCharacter(id, characters[id]));
    }

    // -------------------------------------------------------------------
    // Create, update, delete

    /** `create_planet`: on success the new record goes in under an id not
        in use, and its serialisation is returned. */
    method CreatePlanet(body: Option<PlanetBody>) returns (status: Status, id: int, created: Option<Object>)
      modifies this
      ensures (status, planets) == Handlers.CreatePlanet(old(planets), body, id)
      ensures status == Created ==> id !in old(planets) && created == Some(SerializePlanet(id, planets[id]))
      ensures status != Created ==> created == None
      ensures users == old(users) && characters == old(characters)
      ensures favoritePlanets == old(favoritePlanets) && favoriteCharacters == old(favoriteCharacters)
      ensures Consistent(old(State())) ==> Consistent(State())
    {
      id := 0;
      if body.None? || body.value.IsEmpty() {
        return BadRequest, id, None;
      }
      var b := body.value;
      if b.name.None? || b.size.None? || b.material.None? || b.population.None? {
        return BadRequest, id, None;
      }
      if PlanetNameTaken(planets, b.name.value) {
        return Conflict, id, None;
      }
      id := NewId(planets.Keys);
      var p := Planet(b.name.value, b.size.value, b.material.value, b.population.value);
      CreatePlanetKeepsTable(planets, body, id);
      planets := planets[id := p];
      status, created := Created, Some(SerializePlanet(id, p));
    }

    /** `create_character`. */
    method CreateCharacter(body: Option<CharacterBody>) returns (status: Status, id: int, created: Option<Object>)
      modifies this
      ensures (status, characters) == Handlers.CreateCharacter(old(characters), body, id)
      ensures status == Created ==> id !in old(characters) && created == Some(SerializeCharacter(id, characters[id]))
      ensures status != Created ==> created == None
      ensures users == old(users) && planets == old(planets)
      ensures favoritePlanets == old(favoritePlanets) && favoriteCharacters == old(favoriteCharacters)
      ensures Consistent(old(State())) ==> Consistent(State())
    {
      id := 0;
      if body.None? || body.value.IsEmpty() {
        return BadRequest, id, None;
      }
      var b := body.value;
      if b.name.None? || b.age.None? || b.genre.None? || b.affiliation.None? {
        return BadRequest, id, None;
      }
      if CharacterNameTaken(characters, b.name.value) {
        return Conflict, id, None;
      }
      id := NewId(characters.Keys);
      var c := Character(b.name.value, b.age.value, b.genre.value, b.affiliation.value);
      CreateCharacterKeepsTable(characters, body, id);
      characters := characters[id := c];
      status, created := Created, Some(SerializeCharacter(id, c));
    }

    /** `modify_planet`: the fields present in the body are assigned one by
        one; the updated record is returned. */
    method ModifyPlanet(id: int, body: Option<PlanetBody>) returns (status: Status, updated: Option<Object>)
      modifies this
      ensures (status, planets) == Handlers.ModifyPlanet(old(planets), id, body)
      ensures status == Ok ==> updated == Some(SerializePlanet(id, planets[id]))
      ensures status != Ok ==> updated == None
      ensures users == old(users) && characters == old(characters)
      ensures favoritePlanets == old(favoritePlanets) && favoriteCharacters == old(favoriteCharacters)
    {
      if body.None? || body.value.IsEmpty() {
        return BadRequest, None;
      }
      if id !in planets {
        return NotFound(PlanetTable), None;
      }
      var b := body.value;
      var p := planets[id];
      if b.name.Some? {
        p := p.(name := b.name.value);
      }
      if b.size.Some? {
        p := p.(size := b.size.value);
      }
      if b.material.Some? {
        p := p.(material := b.material.value);
      }
      if b.population.Some? {
        p := p.(population := b.population.value);
      }
      planets := planets[id := p];
      status, updated := Ok, Some(SerializePlanet(id, p));
    }

    /** `modify_character`. */
    method ModifyCharacter(id: int, body: Option<CharacterBody>) returns (status: Status, updated: Option<Object>)
      modifies this
      ensures (status, characters) == Handlers.ModifyCharacter(old(characters), id, body)
      ensures status == Ok ==> updated == Some(SerializeCharacter(id, characters[id]))
      ensures status != Ok ==> updated == None
      ensures users == old(users) && planets == old(planets)
      ensures favoritePlanets == old(favoritePlanets) && favoriteCharacters == old(favoriteCharacters)
    {
      if body.None? || body.value.IsEmpty() {
        return BadRequest, None;
      }
      if id !in characters {
        return NotFound(CharacterTable), None;
      }
      var b := body.value;
      var c := characters[id];
      if b.name.Some? {
        c := c.(name := b.name.value);
      }
      if b.age.Some? {
        c := c.(age := b.age.value);
      }
      if b.genre.Some? {
        c := c.(genre := b.genre.value);
      }
      if b.affiliation.Some? {
        c := c.(affiliation := b.affiliation.value);
      }
      characters := characters[id := c];
      status, updated := Ok, Some(SerializeCharacter(id, c));
    }

    /** `delete_planet`: the record is removed; the character join table
        and every planet favourite of another planet are kept, and no
        favourite row is added. Whether the rows that reference the deleted
        planet go is not stated. */
    method DeletePlanet(id: int) returns (status: Status)
      modifies this
      ensures (status, planets) == DeleteRecord(old(planets), PlanetTable, id)
      ensures users == old(users) && characters == old(characters)
      ensures favoriteCharacters == old(favoriteCharacters)
      ensures favoritePlanets <= old(favoritePlanets)
      ensures forall l :: l in old(favoritePlanets) && l.target != id ==> l in favoritePlanets
    {
      if id !in planets {
        return NotFound(PlanetTable);
      }
      planets := planets - {id};
      status := Ok;
    }

    /** `delete_character`: the record is removed; the planet join table
        and every character favourite of another character are kept, and no
        favourite row is added. Whether the rows that reference the deleted
        character go is not stated. */
    method DeleteCharacter(id: int) returns (status: Status)
      modifies this
      ensures (status, characters) == DeleteRecord(old(characters), CharacterTable, id)
      ensures users == old(users) && planets == old(planets)
      ensures favoritePlanets == old(favoritePlanets)
      ensures favoriteCharacters <= old(favoriteCharacters)
      ensures forall l :: l in old(favoriteCharacters) && l.target != id ==> l in favoriteCharacters
    {
      if id !in characters {
        return NotFound(CharacterTable);
      }
      characters := characters - {id};
      status := Ok;
    }
  }

  /** A client of the store: user 1 and planet 5 exist and are not linked;
      favouriting, listing, unfavouriting and listing again behave as the
      handlers promise. */
  method FavoritePlanetScenario(u: User, p: Planet)
  {
    var store := new Store(Db(map[1 := u], map[5 := p], map[], {}, {}));
    var s := store.PostPlanetFavorite(1, 5);
    assert s == Created && s.Code() == 201;
    var again := store.PostPlanetFavorite(1, 5);
    assert again == Conflict && store.favoritePlanets == {Link(5, 1)};
    var status, planetList, characterList, order, characterOrder := store.GetFavorites(1);
    assert FavoriteIds(store.favoritePlanets, store.planets, 1) == {5};
    EnumeratesCount(planetList, order, store.planets, {5}, SerializePlanet);
    assert order[0] == 5;
    assert planetList == [SerializePlanet(5, p)];
    s := store.DeletePlanetFavorite(1, 5);
    assert s == Ok;
    s := store.DeletePlanetFavorite(1, 5);
    assert s == BadRequest;
    status, planetList, characterList, order, characterOrder := store.GetFavorites(1);
    assert FavoriteIds(store.favoritePlanets, store.planets, 1) == {};
    EnumeratesCount(planetList, order, store.planets, {}, SerializePlanet);
    assert planetList == [];
    var missing := store.PostPlanetFavorite(999999, 6);
    assert missing == NotFound(PlanetTable);
  }
}
