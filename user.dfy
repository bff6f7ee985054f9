/** `dmutils/user.py`: the role test on a user record from the API and the
    `User` object that the login manager keeps. */
module Users {

  import opened Results
  import opened Values

  /** `user_has_role(user, role)`: `user['users']['role'] == role`, and
      `False` when a key is missing or a value cannot be indexed. */
  function UserHasRole(user: Value, role: string): (r: bool)
  {
    match Getitem(user, "users")
    case Raise(_) => false
    case Ok(users) =>
      match Getitem(users, "role")
      case Raise(_) => false
      case Ok(value) => value == Str(role)
  }

  /** The role test holds exactly for a record whose `users` entry is a
      dictionary with that `role`. */
  lemma {:induction false} UserHasRoleMeaning(user: Value, role: string)
    ensures UserHasRole(user, role) <==>
              user.Dict? && "users" in user.entries && user.entries["users"].Dict?
              && "role" in user.entries["users"].entries
              && user.entries["users"].entries["role"] == Str(role)
  {
  }

  /** A user as the login manager sees it; the fields are set once, by the
      constructor. */
  datatype User = User(id: Value, emailAddress: Value, supplierId: Value, supplierName: Value, locked: Value)
  {
    /** `is_authenticated()`, `is_active()`: every such user is. */
    predicate IsAuthenticated() { true }

    predicate IsActive() { true }

    /** `is_anonymous()`: no such user is. */
    predicate IsAnonymous() { false }

    /** `get_id()`: `unicode(self.id)`. */
    function GetId(repr: Value -> string): (r: string)
      ensures id.Str? ==> r == id.s
      ensures id.Int? ==> r == IntToString(id.i)
    {
      PyUnicode(id, repr)
    }

    /** `serialize()`. */
    function Serialize(): (r: Value)
    {
      Dict(map["id" := id, "emailAddress" := emailAddress, "supplierId" := supplierId,
               "supplierName" := supplierName, "locked" := locked])
    }
  }

  /** The keys `serialize` produces. */
  const SerializedKeys: set<string> := {"id", "emailAddress", "supplierId", "supplierName", "locked"}

  /** `serialize` holds exactly the five fields under their camel-case names. */
  lemma {:induction false} SerializeFields(u: User)
    ensures u.Serialize().Dict? && u.Serialize().entries.Keys == SerializedKeys
    ensures var e := u.Serialize().entries;
            e["id"] == u.id && e["emailAddress"] == u.emailAddress && e["supplierId"] == u.supplierId
            && e["supplierName"] == u.supplierName && e["locked"] == u.locked
  {
  }

  /** `User.from_json(user_json)`: the fields of `user_json["users"]`, the
      supplier's id and name only when it has a `supplier`.  A missing key
      or a value that cannot be indexed raises, in the order the source
      reads them. */
  function FromJson(userJson: Value): (r: Result<User>)
  {
    var user :- Getitem(userJson, "users");
    var hasSupplier :- PyIn("supplier", user);
    var supplier :- if hasSupplier then Getitem(user, "supplier") else Ok(Null);
    var supplierId :- if hasSupplier then Getitem(supplier, "supplierId") else Ok(Null);
    var supplierName :- if hasSupplier then Getitem(supplier, "name") else Ok(Null);
    var id :- Getitem(user, "id");
    var emailAddress :- Getitem(user, "emailAddress");
    var locked :- Getitem(user, "locked");
    Ok(User(id, emailAddress, supplierId, supplierName, locked))
  }

  /** A well-formed API record: a `users` dictionary with the three fields,
      and, when it has a supplier, a dictionary with the supplier's id and
      name. */
  predicate WellFormedUserJson(userJson: Value) {
    userJson.Dict? && "users" in userJson.entries
    && var user := userJson.entries["users"];
       user.Dict? && "id" in user.entries && "emailAddress" in user.entries && "locked" in user.entries
       && ("supplier" in user.entries ==>
             var supplier := user.entries["supplier"];
             supplier.Dict? && "supplierId" in supplier.entries && "name" in supplier.entries)
  }

  /** A well-formed record is read without error, and serializing the user
      gives back its fields, with `None` for the supplier of a user without
      one. */
  lemma {:induction false} SerializeFromJson(userJson: Value)
    requires WellFormedUserJson(userJson)
    ensures FromJson(userJson).Ok?
    ensures var user := userJson.entries["users"].entries;
            var e := FromJson(userJson).value.Serialize().entries;
            e["id"] == user["id"] && e["emailAddress"] == user["emailAddress"] && e["locked"] == user["locked"]
            && ("supplier" in user ==>
                  e["supplierId"] == user["supplier"].entries["supplierId"]
                  && e["supplierName"] == user["supplier"].entries["name"])
            && ("supplier" !in user ==> e["supplierId"] == Null && e["supplierName"] == Null)
  {
  }

  /** Without a `users` entry, or without one of its three fields, reading
      fails. */
  lemma {:induction false} FromJsonMissing(userJson: Value)
    requires userJson.Dict? && "users" in userJson.entries && userJson.entries["users"].Dict?
    requires var user := userJson.entries["users"].entries;
             "id" !in user || "emailAddress" !in user || "locked" !in user
    ensures FromJson(userJson).Raise?
  {
  }
}
