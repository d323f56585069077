/** Record shapes, serialisations and table constraints of the relational
    store: the User, Planet and Character tables and the two favourite join
    tables. Ids are the keys of the tables, so a record value holds only its
    other columns. */
module Models {

  datatype Option<+T> = None | Some(value: T)

  /** The JSON values the serialisers emit. A datetime column is kept as
      JTime; its ISO-8601 rendering is not modelled. */
  datatype Json = JInt(n: int) | JStr(s: string) | JBool(b: bool) | JTime(t: int)

  /** A JSON object as produced by a `serialize` method. */
  type Object = map<string, Json>

  /** A row of the user table. `password` and `isActive` are stored but
      never serialised. */
  datatype User = User(
    email: string,
    name: string,
    lastname: string,
    suscriptionDate: int,
    password: string,
    isActive: bool)

  datatype Planet = Planet(name: string, size: int, material: string, population: int)

  datatype Character = Character(name: string, age: int, genre: string, affiliation: string)

  /** A row of `favorite_planets` or `favorite_characters`: the target
      (planet or character) id and the user id, in column order. The pair is
      the row's whole identity, so a join table is a set of links. */
  datatype Link = Link(target: int, user: int)

  /** `Planet.serialize`: the five public columns, copied from the row. */
  function SerializePlanet(id: int, p: Planet): (o: Object)
    ensures o.Keys == {"id", "name", "size", "material", "population"}
  {
    map["id" := JInt(id), "name" := JStr(p.name), "size" := JInt(p.size),
        "material" := JStr(p.material), "population" := JInt(p.population)]
  }

  /** `Character.serialize`: the five public columns, copied from the row. */
  function SerializeCharacter(id: int, c: Character): (o: Object)
    ensures o.Keys == {"id", "name", "age", "genre", "affiliation"}
  {
    map["id" := JInt(id), "name" := JStr(c.name), "age" := JInt(c.age),
        "genre" := JStr(c.genre), "affiliation" := JStr(c.affiliation)]
  }

  /** Nothing is lost by serialising a planet: the object determines the id
      and every column of the row. */
  lemma SerializePlanetInjective(id: int, p: Planet, id': int, p': Planet)
    requires SerializePlanet(id, p) == SerializePlanet(id', p')
    ensures id == id' && p == p'
  {
  }

  /** Nothing is lost by serialising a character. */
  lemma SerializeCharacterInjective(id: int, c: Character, id': int, c': Character)
    requires SerializeCharacter(id, c) == SerializeCharacter(id', c')
    ensures id == id' && c == c'
  {
  }

  /** Reading a column attribute of a User instance: the seven declared
      columns give their value, and `subscription_date`, which the class
      does not declare, raises AttributeError (None). The relationship and
      method attributes are not JSON values and are not modelled here. */
  function UserAttribute(id: int, u: User, attr: string): (v: Option<Json>)
    ensures attr in {"id", "email", "name", "lastname", "suscription_date", "password", "is_active"}
            ==> v.Some?
    ensures attr == "subscription_date" ==> v.None?
  {
    if attr == "id" then Some(JInt(id))
    else if attr == "email" then Some(JStr(u.email))
    else if attr == "name" then Some(JStr(u.name))
    else if attr == "lastname" then Some(JStr(u.lastname))
    else if attr == "suscription_date" then Some(JTime(u.suscriptionDate))
    else if attr == "password" then Some(JStr(u.password))
    else if attr == "is_active" then Some(JBool(u.isActive))
    else None
  }

  /** The (key, attribute) pairs `User.serialize` reads, as written: the
      last attribute, `subscription_date`, is not declared by the class. */
  const UserSerializeAsWrittenReads: seq<(string, string)> :=
    [("id", "id"), ("email", "email"), ("name", "name"),
     ("lastname", "lastname"), ("subscription_date", "subscription_date")]

  /** `User.serialize` as written. None stands for the AttributeError raised
      on the read of the undeclared attribute: the dict is built exactly
      when the user has an attribute named `subscription_date`. */
  function SerializeUserAsWritten(id: int, u: User): (r: Option<Object>)
    ensures r.Some? <==> UserAttribute(id, u, "subscription_date").Some?
  {
    var cols := UserSerializeAsWrittenReads;
    assert forall i :: 0 <= i < 4 ==> UserAttribute(id, u, cols[i].1).Some?;
    assert cols[4].1 == "subscription_date";
    ReadAttributes(id, u, cols)
  }

  /** Builds an object key by key from (key, attribute) pairs, failing on the
      first attribute the user does not have. */
  function ReadAttributes(id: int, u: User, columns: seq<(string, string)>): (r: Option<Object>)
    ensures r.Some? <==> forall i :: 0 <= i < |columns| ==> UserAttribute(id, u, columns[i].1).Some?
  {
    if columns == [] then Some(map[])
    else
      match UserAttribute(id, u, columns[0].1)
      case None => None
      case Some(v) =>
        match ReadAttributes(id, u, columns[1..])
        case None => None
        case Some(rest) => Some(rest[columns[0].0 := v])
  }

  /** As written, serialising any user fails: every call to `get_all_users`
      on a non-empty table ends in an uncaught AttributeError. */
  lemma SerializeUserAsWrittenFails(id: int, u: User)
    ensures SerializeUserAsWritten(id, u) == None
  {
    assert UserAttribute(id, u, UserSerializeAsWrittenReads[4].1).None?;
  }

  /** `User.serialize` as intended: the stored `suscription_date` column is
      emitted under the key `subscription_date`; the password and the active
      flag are never exposed. */
  function SerializeUser(id: int, u: User): (o: Object)
    ensures o.Keys == {"id", "email", "name", "lastname", "subscription_date"}
    ensures "password" !in o && "is_active" !in o
    ensures o["subscription_date"] == UserAttribute(id, u, "suscription_date").value
  {
    map["id" := JInt(id), "email" := JStr(u.email), "name" := JStr(u.name),
        "lastname" := JStr(u.lastname), "subscription_date" := JTime(u.suscriptionDate)]
  }

  /** `Planet.name` is unique within the planet table. */
  ghost predicate PlanetNamesUnique(planets: map<int, Planet>)
  {
    forall a, b :: a in planets && b in planets && planets[a].name == planets[b].name ==> a == b
  }

  /** `Character.name` is unique within the character table. */
  ghost predicate CharacterNamesUnique(characters: map<int, Character>)
  {
    forall a, b :: a in characters && b in characters && characters[a].name == characters[b].name ==> a == b
  }

  /** `User.email` is unique within the user table. */
  ghost predicate EmailsUnique(users: map<int, User>)
  {
    forall a, b :: a in users && b in users && users[a].email == users[b].email ==> a == b
  }

  /** The foreign keys of a join table: every row references an existing
      target and an existing user. */
  ghost predicate LinksResolve<T>(links: set<Link>, targets: map<int, T>, users: map<int, User>)
  {
    forall l :: l in links ==> l.target in targets && l.user in users
  }
}
