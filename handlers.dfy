/** The rules the route handlers apply to the store, one pure function per
    handler: each takes the tables it reads and returns the status kind and
    the new content of the table it writes. The store's methods (module App)
    are proved to compute exactly these functions; the lemmas below state
    what the rules promise across several requests. */
module Handlers {
  import opened Models

  /** The table a missing id was looked up in. */
  datatype Table = UserTable | PlanetTable | CharacterTable

  /** The tables a favourite points into. */
  type TargetTable = t: Table | t != UserTable witness PlanetTable

  /** The status kinds the handlers answer with; the message text is not
      modelled, only which lookup failed. */
  datatype Status = Ok | Created | BadRequest | NotFound(missing: Table) | Conflict
  {
    function Code(): int
    {
      match this
      case Ok => 200
      case Created => 201
      case BadRequest => 400
      case NotFound(_) => 404
      case Conflict => 409
    }
  }

  // ---------------------------------------------------------------------
  // Favourites

  /** `post_planet_favorite` / `post_character_favorite`: the target is looked
      up first, then the user; an existing pair is a conflict; otherwise the
      pair is inserted. `kind` says which table `targets` is. */
  function AddFavorite<T>(users: map<int, User>, targets: map<int, T>, kind: TargetTable,
                          links: set<Link>, uid: int, tid: int): (r: (Status, set<Link>))
    ensures r.0 == NotFound(kind) <==> tid !in targets
    ensures r.0 == NotFound(UserTable) <==> tid in targets && uid !in users
    ensures r.0 == Conflict <==> tid in targets && uid in users && Link(tid, uid) in links
    ensures r.0 == Created <==> tid in targets && uid in users && Link(tid, uid) !in links
    ensures r.1 - {Link(tid, uid)} == links - {Link(tid, uid)}
    ensures Link(tid, uid) in r.1 <==> Link(tid, uid) in links || r.0 == Created
  {
    if tid !in targets then (NotFound(kind), links)
    else if uid !in users then (NotFound(UserTable), links)
    else if Link(tid, uid) in links then (Conflict, links)
    else (Created, links + {Link(tid, uid)})
  }

  /** `delete_planet_favorite` / `delete_character_favorite`: the same two
      lookups, then a pair that is not present is a bad request; otherwise
      the pair is removed. */
  function RemoveFavorite<T>(users: map<int, User>, targets: map<int, T>, kind: TargetTable,
                             links: set<Link>, uid: int, tid: int): (r: (Status, set<Link>))
    ensures r.0 == NotFound(kind) <==> tid !in targets
    ensures r.0 == NotFound(UserTable) <==> tid in targets && uid !in users
    ensures r.0 == BadRequest <==> tid in targets && uid in users && Link(tid, uid) !in links
    ensures r.0 == Ok <==> tid in targets && uid in users && Link(tid, uid) in links
    ensures r.1 - {Link(tid, uid)} == links - {Link(tid, uid)}
    ensures Link(tid, uid) in r.1 <==> Link(tid, uid) in links && r.0 != Ok
  {
    if tid !in targets then (NotFound(kind), links)
    else if uid !in users then (NotFound(UserTable), links)
    else if Link(tid, uid) !in links then (BadRequest, links)
    else (Ok, links - {Link(tid, uid)})
  }

  /** The ids `get_favorite` lists for a user: the targets of the user's
      rows that resolve to a record (the relationship loads through a join
      on the target table). */
  function FavoriteIds<T>(links: set<Link>, targets: map<int, T>, uid: int): (ids: set<int>)
    ensures ids <= targets.Keys
    ensures forall t :: t in ids <==> t in targets && Link(t, uid) in links
  {
    set l | l in links && l.user == uid && l.target in targets :: l.target
  }

  /** `out` is one serialised record per id of `ids`, each id exactly once,
      in the order `order`. */
  ghost predicate Enumerates<T>(out: seq<Object>, order: seq<int>, table: map<int, T>,
                                ids: set<int>, serialize: (int, T) -> Object)
  {
    && |out| == |order|
    && (forall j :: 0 <= j < |order| ==>
          order[j] in ids && order[j] in table && out[j] == serialize(order[j], table[order[j]]))
    && (forall id :: id in ids ==> id in order)
    && (forall i, j :: 0 <= i < j < |order| ==> order[i] != order[j])
  }

  /** The ids of a sequence without repetitions are as many as its elements. */
  lemma {:induction false} DistinctCount(order: seq<int>)
    requires forall i, j :: 0 <= i < j < |order| ==> order[i] != order[j]
    ensures |set x | x in order| == |order|
  {
    if order != [] {
      DistinctCount(order[1..]);
      assert (set x | x in order) == {order[0]} + (set x | x in order[1..]);
      assert order[0] !in (set x | x in order[1..]);
    }
  }

  /** A listing holds exactly as many entries as there are ids to list. */
  lemma EnumeratesCount<T>(out: seq<Object>, order: seq<int>, table: map<int, T>,
                           ids: set<int>, serialize: (int, T) -> Object)
    requires Enumerates(out, order, table, ids, serialize)
    ensures |out| == |ids|
  {
    DistinctCount(order);
    forall x ensures x in order <==> x in ids {
      if x in order {
        var j :| 0 <= j < |order| && order[j] == x;
      }
    }
    assert (set x | x in order) == ids;
  }

  /** A successful add, followed by a remove of the same pair, gives back
      the relation as it was. */
  lemma AddThenRemoveRestores<T>(users: map<int, User>, targets: map<int, T>, kind: TargetTable,
                                 links: set<Link>, uid: int, tid: int)
    requires AddFavorite(users, targets, kind, links, uid, tid).0 == Created
    ensures RemoveFavorite(users, targets, kind, AddFavorite(users, targets, kind, links, uid, tid).1, uid, tid)
            == (Ok, links)
  {
  }

  /** A successful remove, followed by an add of the same pair, gives back
      the relation as it was. */
  lemma RemoveThenAddRestores<T>(users: map<int, User>, targets: map<int, T>, kind: TargetTable,
                                 links: set<Link>, uid: int, tid: int)
    requires RemoveFavorite(users, targets, kind, links, uid, tid).0 == Ok
    ensures AddFavorite(users, targets, kind, RemoveFavorite(users, targets, kind, links, uid, tid).1, uid, tid)
            == (Created, links)
  {
    var removed := RemoveFavorite(users, targets, kind, links, uid, tid).1;
    assert removed == links - {Link(tid, uid)};
    assert removed + {Link(tid, uid)} == links;
  }

  /** Adding the same pair twice: whatever the first answer, the second add
      of two existing entities is a conflict and inserts nothing. */
  lemma AddTwiceConflicts<T>(users: map<int, User>, targets: map<int, T>, kind: TargetTable,
                             links: set<Link>, uid: int, tid: int)
    requires tid in targets && uid in users
    ensures var once := AddFavorite(users, targets, kind, links, uid, tid).1;
            AddFavorite(users, targets, kind, once, uid, tid) == (Conflict, once)
  {
  }

  /** After a successful add, the user's listing gains exactly the target. */
  lemma AddShowsInListing<T>(users: map<int, User>, targets: map<int, T>, kind: TargetTable,
                             links: set<Link>, uid: int, tid: int)
    requires AddFavorite(users, targets, kind, links, uid, tid).0 == Created
    ensures FavoriteIds(AddFavorite(users, targets, kind, links, uid, tid).1, targets, uid)
            == FavoriteIds(links, targets, uid) + {tid}
    ensures tid !in FavoriteIds(links, targets, uid)
  {
  }

  /** After a successful remove, the user's listing loses exactly the target. */
  lemma RemoveHidesFromListing<T>(users: map<int, User>, targets: map<int, T>, kind: TargetTable,
                                  links: set<Link>, uid: int, tid: int)
    requires RemoveFavorite(users, targets, kind, links, uid, tid).0 == Ok
    ensures FavoriteIds(RemoveFavorite(users, targets, kind, links, uid, tid).1, targets, uid)
            == FavoriteIds(links, targets, uid) - {tid}
    ensures tid in FavoriteIds(links, targets, uid)
  {
  }

  /** A favourite request of one user never changes another user's listing. */
  lemma OtherUsersListingUnchanged<T>(users: map<int, User>, targets: map<int, T>, kind: TargetTable,
                                      links: set<Link>, uid: int, tid: int, other: int)
    requires other != uid
    ensures FavoriteIds(AddFavorite(users, targets, kind, links, uid, tid).1, targets, other)
            == FavoriteIds(links, targets, other)
    ensures FavoriteIds(RemoveFavorite(users, targets, kind, links, uid, tid).1, targets, other)
            == FavoriteIds(links, targets, other)
  {
  }

  /** Adding and removing favourites keeps the join table's foreign keys. */
  lemma FavoriteRequestsKeepLinksResolved<T>(users: map<int, User>, targets: map<int, T>, kind: TargetTable,
                                             links: set<Link>, uid: int, tid: int)
    requires LinksResolve(links, targets, users)
    ensures LinksResolve(AddFavorite(users, targets, kind, links, uid, tid).1, targets, users)
    ensures LinksResolve(RemoveFavorite(users, targets, kind, links, uid, tid).1, targets, users)
  {
  }

  // ---------------------------------------------------------------------
  // The whole store, and sequences of favourite requests

  datatype Db = Db(
    users: map<int, User>,
    planets: map<int, Planet>,
    characters: map<int, Character>,
    favoritePlanets: set<Link>,
    favoriteCharacters: set<Link>)

  /** The constraints the schema declares: unique emails and names, and
      join rows that reference existing records. */
  ghost predicate Consistent(db: Db)
  {
    && EmailsUnique(db.users)
    && PlanetNamesUnique(db.planets)
    && CharacterNamesUnique(db.characters)
    && LinksResolve(db.favoritePlanets, db.planets, db.users)
    && LinksResolve(db.favoriteCharacters, db.characters, db.users)
  }

  datatype FavoriteRequest =
    | PostPlanetFavorite(user: int, target: int)
    | DeletePlanetFavorite(user: int, target: int)
    | PostCharacterFavorite(user: int, target: int)
    | DeleteCharacterFavorite(user: int, target: int)

  /** One favourite request against the whole store. */
  function ApplyFavorite(db: Db, req: FavoriteRequest): (r: (Status, Db))
    ensures r.1.users == db.users && r.1.planets == db.planets && r.1.characters == db.characters
    ensures req.PostPlanetFavorite? || req.DeletePlanetFavorite? ==>
              r.1.favoriteCharacters == db.favoriteCharacters
    ensures req.PostCharacterFavorite? || req.DeleteCharacterFavorite? ==>
              r.1.favoritePlanets == db.favoritePlanets
  {
    match req
    case PostPlanetFavorite(u, t) =>
      var (s, fp) := AddFavorite(db.users, db.planets, PlanetTable, db.favoritePlanets, u, t);
      (s, db.(favoritePlanets := fp))
    case DeletePlanetFavorite(u, t) =>
      var (s, fp) := RemoveFavorite(db.users, db.planets, PlanetTable, db.favoritePlanets, u, t);
      (s, db.(favoritePlanets := fp))
    case PostCharacterFavorite(u, t) =>
      var (s, fc) := AddFavorite(db.users, db.characters, CharacterTable, db.favoriteCharacters, u, t);
      (s, db.(favoriteCharacters := fc))
    case DeleteCharacterFavorite(u, t) =>
      var (s, fc) := RemoveFavorite(db.users, db.characters, CharacterTable, db.favoriteCharacters, u, t);
      (s, db.(favoriteCharacters := fc))
  }

  /** The store after a sequence of favourite requests, in order. */
  function Replay(db: Db, reqs: seq<FavoriteRequest>): Db
    decreases |reqs|
  {
    if reqs == [] then db else Replay(ApplyFavorite(db, reqs[0]).1, reqs[1..])
  }

  /** Any sequence of favourite requests leaves the entity tables alone and
      keeps every schema constraint: no duplicate pair, no dangling row. */
  lemma {:induction false} ReplayKeepsConsistent(db: Db, reqs: seq<FavoriteRequest>)
    requires Consistent(db)
    ensures var end := Replay(db, reqs);
            Consistent(end) && end.users == db.users && end.planets == db.planets
            && end.characters == db.characters
    decreases |reqs|
  {
    if reqs != [] {
      var next := ApplyFavorite(db, reqs[0]).1;
      match reqs[0] {
        case PostPlanetFavorite(u, t) =>
          FavoriteRequestsKeepLinksResolved(db.users, db.planets, PlanetTable, db.favoritePlanets, u, t);
        case DeletePlanetFavorite(u, t) =>
          FavoriteRequestsKeepLinksResolved(db.users, db.planets, PlanetTable, db.favoritePlanets, u, t);
        case PostCharacterFavorite(u, t) =>
          FavoriteRequestsKeepLinksResolved(db.users, db.characters, CharacterTable, db.favoriteCharacters, u, t);
        case DeleteCharacterFavorite(u, t) =>
          FavoriteRequestsKeepLinksResolved(db.users, db.characters, CharacterTable, db.favoriteCharacters, u, t);
      }
      assert Consistent(next);
      ReplayKeepsConsistent(next, reqs[1..]);
    }
  }

  // ---------------------------------------------------------------------
  // Planet and character CRUD

  /** The JSON body of a planet request: each known key present or not, and
      whether any other key is present. */
  datatype PlanetBody = PlanetBody(
    name: Option<string>,
    size: Option<int>,
    material: Option<string>,
    population: Option<int>,
    otherKeys: bool)
  {
    predicate IsEmpty()
    {
      name.None? && size.None? && material.None? && population.None? && !otherKeys
    }
  }

  /** The JSON body of a character request. */
  datatype CharacterBody = CharacterBody(
    name: Option<string>,
    age: Option<int>,
    genre: Option<string>,
    affiliation: Option<string>,
    otherKeys: bool)
  {
    predicate IsEmpty()
    {
      name.None? && age.None? && genre.None? && affiliation.None? && !otherKeys
    }
  }

  /** `not data`: no JSON body at all, or an empty object. Such a body
      never carries the fields a create needs. */
  predicate NoPlanetData(body: Option<PlanetBody>)
    ensures NoPlanetData(body) && body.Some? ==> PlanetFromBody(body.value).None?
  {
    body.None? || body.value.IsEmpty()
  }

  predicate NoCharacterData(body: Option<CharacterBody>)
    ensures NoCharacterData(body) && body.Some? ==> CharacterFromBody(body.value).None?
  {
    body.None? || body.value.IsEmpty()
  }

  /** The record a create builds, when all four required fields are present. */
  function PlanetFromBody(b: PlanetBody): (p: Option<Planet>)
    ensures p.Some? <==> b.name.Some? && b.size.Some? && b.material.Some? && b.population.Some?
    ensures p.Some? ==> p.value.name == b.name.value
  {
    if b.name.Some? && b.size.Some? && b.material.Some? && b.population.Some?
    then Some(Planet(b.name.value, b.size.value, b.material.value, b.population.value))
    else None
  }

  function CharacterFromBody(b: CharacterBody): (c: Option<Character>)
    ensures c.Some? <==> b.name.Some? && b.age.Some? && b.genre.Some? && b.affiliation.Some?
    ensures c.Some? ==> c.value.name == b.name.value
  {
    if b.name.Some? && b.age.Some? && b.genre.Some? && b.affiliation.Some?
    then Some(Character(b.name.value, b.age.value, b.genre.value, b.affiliation.value))
    else None
  }

  /** The lookup by name a create makes before inserting. */
  predicate PlanetNameTaken(planets: map<int, Planet>, name: string)
  {
    exists k :: k in planets && planets[k].name == name
  }

  predicate CharacterNameTaken(characters: map<int, Character>, name: string)
  {
    exists k :: k in characters && characters[k].name == name
  }

  /** `create_planet`: no data or a missing field is a bad request, a used
      name a conflict; otherwise the record goes in under `id`. */
  function CreatePlanet(planets: map<int, Planet>, body: Option<PlanetBody>, id: int): (r: (Status, map<int, Planet>))
    ensures r.0 == BadRequest <==> NoPlanetData(body) || PlanetFromBody(body.value).None?
    ensures r.0 == Conflict <==>
              !NoPlanetData(body) && PlanetFromBody(body.value).Some? && PlanetNameTaken(planets, body.value.name.value)
    ensures r.0 == BadRequest || r.0 == Conflict || r.0 == Created
    ensures r.0 == Created ==> r.1 == planets[id := PlanetFromBody(body.value).value]
    ensures r.0 != Created ==> r.1 == planets
  {
    if NoPlanetData(body) then (BadRequest, planets)
    else match PlanetFromBody(body.value)
      case None => (BadRequest, planets)
      case Some(p) =>
        if PlanetNameTaken(planets, p.name) then (Conflict, planets)
        else (Created, planets[id := p])
  }

  /** `create_character`, the same rules over the character table. */
  function CreateCharacter(characters: map<int, Character>, body: Option<CharacterBody>, id: int): (r: (Status, map<int, Character>))
    ensures r.0 == BadRequest <==> NoCharacterData(body) || CharacterFromBody(body.value).None?
    ensures r.0 == Conflict <==>
              !NoCharacterData(body) && CharacterFromBody(body.value).Some?
              && CharacterNameTaken(characters, body.value.name.value)
    ensures r.0 == BadRequest || r.0 == Conflict || r.0 == Created
    ensures r.0 == Created ==> r.1 == characters[id := CharacterFromBody(body.value).value]
    ensures r.0 != Created ==> r.1 == characters
  {
    if NoCharacterData(body) then (BadRequest, characters)
    else match CharacterFromBody(body.value)
      case None => (BadRequest, characters)
      case Some(c) =>
        if CharacterNameTaken(characters, c.name) then (Conflict, characters)
        else (Created, characters[id := c])
  }

  /** A successful create under an unused id keeps every existing record and
      keeps names unique. */
  lemma CreatePlanetKeepsTable(planets: map<int, Planet>, body: Option<PlanetBody>, id: int)
    requires id !in planets
    requires CreatePlanet(planets, body, id).0 == Created
    ensures var after := CreatePlanet(planets, body, id).1;
            after.Keys == planets.Keys + {id}
            && (forall k :: k in planets ==> after[k] == planets[k])
            && (PlanetNamesUnique(planets) ==> PlanetNamesUnique(after))
  {
  }

  lemma CreateCharacterKeepsTable(characters: map<int, Character>, body: Option<CharacterBody>, id: int)
    requires id !in characters
    requires CreateCharacter(characters, body, id).0 == Created
    ensures var after := CreateCharacter(characters, body, id).1;
            after.Keys == characters.Keys + {id}
            && (forall k :: k in characters ==> after[k] == characters[k])
            && (CharacterNamesUnique(characters) ==> CharacterNamesUnique(after))
  {
  }

  /** `modify_planet`'s field-by-field update: a column present in the body
      is overwritten, any other keeps its value. */
  function MergePlanet(p: Planet, b: PlanetBody): (q: Planet)
    ensures q.name == if b.name.Some? then b.name.value else p.name
    ensures q.size == if b.size.Some? then b.size.value else p.size
    ensures q.material == if b.material.Some? then b.material.value else p.material
    ensures q.population == if b.population.Some? then b.population.value else p.population
  {
    var q := if b.name.Some? then p.(name := b.name.value) else p;
    var q := if b.size.Some? then q.(size := b.size.value) else q;
    var q := if b.material.Some? then q.(material := b.material.value) else q;
    if b.population.Some? then q.(population := b.population.value) else q
  }

  /** `modify_character`'s field-by-field update. */
  function MergeCharacter(c: Character, b: CharacterBody): (q: Character)
    ensures q.name == if b.name.Some? then b.name.value else c.name
    ensures q.age == if b.age.Some? then b.age.value else c.age
    ensures q.genre == if b.genre.Some? then b.genre.value else c.genre
    ensures q.affiliation == if b.affiliation.Some? then b.affiliation.value else c.affiliation
  {
    var q := if b.name.Some? then c.(name := b.name.value) else c;
    var q := if b.age.Some? then q.(age := b.age.value) else q;
    var q := if b.genre.Some? then q.(genre := b.genre.value) else q;
    if b.affiliation.Some? then q.(affiliation := b.affiliation.value) else q
  }

  /** Replaying an update changes nothing more; a body with every field
      gives the record a create would build from it, and a body without any
      known field leaves the record as it was. */
  lemma MergePlanetProperties(p: Planet, b: PlanetBody)
    ensures MergePlanet(MergePlanet(p, b), b) == MergePlanet(p, b)
    ensures PlanetFromBody(b).Some? ==> MergePlanet(p, b) == PlanetFromBody(b).value
    ensures b.name.None? && b.size.None? && b.material.None? && b.population.None? ==> MergePlanet(p, b) == p
  {
  }

  lemma MergeCharacterProperties(c: Character, b: CharacterBody)
    ensures MergeCharacter(MergeCharacter(c, b), b) == MergeCharacter(c, b)
    ensures CharacterFromBody(b).Some? ==> MergeCharacter(c, b) == CharacterFromBody(b).value
    ensures b.name.None? && b.age.None? && b.genre.None? && b.affiliation.None? ==> MergeCharacter(c, b) == c
  {
  }

  /** `modify_planet`: no data is a bad request before the id is looked up,
      an unknown id is not found; otherwise only that record changes. */
  function ModifyPlanet(planets: map<int, Planet>, id: int, body: Option<PlanetBody>): (r: (Status, map<int, Planet>))
    ensures r.0 == BadRequest <==> NoPlanetData(body)
    ensures r.0 == NotFound(PlanetTable) <==> !NoPlanetData(body) && id !in planets
    ensures r.0 == Ok <==> !NoPlanetData(body) && id in planets
    ensures r.0 == Ok ==> r.1 == planets[id := MergePlanet(planets[id], body.value)]
    ensures r.0 != Ok ==> r.1 == planets
  {
    if NoPlanetData(body) then (BadRequest, planets)
    else if id !in planets then (NotFound(PlanetTable), planets)
    else (Ok, planets[id := MergePlanet(planets[id], body.value)])
  }

  /** `modify_character`. */
  function ModifyCharacter(characters: map<int, Character>, id: int, body: Option<CharacterBody>): (r: (Status, map<int, Character>))
    ensures r.0 == BadRequest <==> NoCharacterData(body)
    ensures r.0 == NotFound(CharacterTable) <==> !NoCharacterData(body) && id !in characters
    ensures r.0 == Ok <==> !NoCharacterData(body) && id in characters
    ensures r.0 == Ok ==> r.1 == characters[id := MergeCharacter(characters[id], body.value)]
    ensures r.0 != Ok ==> r.1 == characters
  {
    if NoCharacterData(body) then (BadRequest, characters)
    else if id !in characters then (NotFound(CharacterTable), characters)
    else (Ok, characters[id := MergeCharacter(characters[id], body.value)])
  }

  /** `delete_planet` / `delete_character`: an unknown id is not found;
      either way the id is absent afterwards and no other record changes. */
  function DeleteRecord<T>(table: map<int, T>, kind: TargetTable, id: int): (r: (Status, map<int, T>))
    ensures r.0 == NotFound(kind) <==> id !in table
    ensures r.0 == Ok <==> id in table
    ensures r.1.Keys == table.Keys - {id}
    ensures forall k :: k in r.1 ==> r.1[k] == table[k]
  {
    if id !in table then (NotFound(kind), table) else (Ok, table - {id})
  }

  /** Creating a planet under an unused id and deleting it again gives back
      the table as it was. */
  lemma CreateThenDeletePlanet(planets: map<int, Planet>, body: Option<PlanetBody>, id: int)
    requires id !in planets
    requires CreatePlanet(planets, body, id).0 == Created
    ensures DeleteRecord(CreatePlanet(planets, body, id).1, PlanetTable, id) == (Ok, planets)
  {
    var after := CreatePlanet(planets, body, id).1;
    assert after - {id} == planets;
  }

  lemma CreateThenDeleteCharacter(characters: map<int, Character>, body: Option<CharacterBody>, id: int)
    requires id !in characters
    requires CreateCharacter(characters, body, id).0 == Created
    ensures DeleteRecord(CreateCharacter(characters, body, id).1, CharacterTable, id) == (Ok, characters)
  {
    var after := CreateCharacter(characters, body, id).1;
    assert after - {id} == characters;
  }

  /** Deleting a record keeps names unique (update alone can break it). */
  lemma DeleteKeepsNamesUnique(db: Db, id: int)
    requires PlanetNamesUnique(db.planets) && CharacterNamesUnique(db.characters)
    ensures PlanetNamesUnique(DeleteRecord(db.planets, PlanetTable, id).1)
    ensures CharacterNamesUnique(DeleteRecord(db.characters, CharacterTable, id).1)
  {
  }
}
