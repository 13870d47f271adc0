/**
 * The User model's own logic: the role and permission checks, the public
 * contact card, and the serialisation rule for images and logos.
 *
 * Attribute values are PHP values (`Value`); a user's roles are the rows
 * `roles()->get()` returns, each with the permission rows
 * `Role::getPermission` would find by name.
 */
module UserModel {
  import opened Common

  /** A permission row: its action columns (`view`, `edit`, ...). */
  type Permission = map<string, Value>

  datatype Role = Role(slug: string, permissions: map<string, Permission>)

  // ---------------------------------------------------------------------------
  // Roles and permissions

  /** Some role carries the slug. */
  predicate HasRole(roles: seq<Role>, slug: string) {
    exists i :: 0 <= i < |roles| && roles[i].slug == slug
  }

  /** The role has the named permission with the action set to the integer 1
    * (the comparison is `=== 1`, so "1" or true do not count; a missing
    * action column reads as null). */
  predicate Grants(role: Role, name: string, action: string) {
    name in role.permissions && action in role.permissions[name] && role.permissions[name][action] == Int(1)
  }

  predicate Allows(roles: seq<Role>, name: string, action: string) {
    exists i :: 0 <= i < |roles| && Grants(roles[i], name, action)
  }

  /** `roleIs`: the loop returns at the first role with the slug. */
  method RoleIs(roles: seq<Role>, slug: string) returns (found: bool)
    ensures found <==> HasRole(roles, slug)
  {
    for i := 0 to |roles|
      invariant forall k :: 0 <= k < i ==> roles[k].slug != slug
    {
      if roles[i].slug == slug {
        return true;
      }
    }
    return false;
  }

  /** `can`: the loop returns at the first role that grants the action. */
  method Can(roles: seq<Role>, name: string, action: string) returns (allowed: bool)
    ensures allowed <==> Allows(roles, name, action)
  {
    for i := 0 to |roles|
      invariant forall k :: 0 <= k < i ==> !Grants(roles[k], name, action)
    {
      var role := roles[i];
      if name in role.permissions {
        var permission := role.permissions[name];
        if action in permission && permission[action] == Int(1) {
          return true;
        }
      }
    }
    return false;
  }

  /** A role without a granting permission adds nothing, wherever it sits
    * in the list; a role that grants is enough on its own. */
  lemma NonGrantingRoleAddsNothing(before: seq<Role>, role: Role, after: seq<Role>, name: string, action: string)
    ensures !Grants(role, name, action) ==>
      (Allows(before + [role] + after, name, action) <==> Allows(before + after, name, action))
    ensures Grants(role, name, action) ==> Allows(before + [role] + after, name, action)
  {
    var with := before + [role] + after;
    var without := before + after;
    assert with[|before|] == role;
    if !Grants(role, name, action) {
      if Allows(with, name, action) {
        var i :| 0 <= i < |with| && Grants(with[i], name, action);
        if i < |before| {
          assert without[i] == with[i];
        } else {
          assert without[i - 1] == with[i];
        }
      }
      if Allows(without, name, action) {
        var i :| 0 <= i < |without| && Grants(without[i], name, action);
        if i < |before| {
          assert with[i] == without[i];
        } else {
          assert with[i + 1] == without[i];
        }
      }
    }
  }

  /** A permission whose action holds the string "1" (or true) grants
    * nothing. */
  lemma StrictOne(role: Role, name: string, action: string)
    requires name in role.permissions && action in role.permissions[name]
    requires role.permissions[name][action] in {Str("1"), Bool(true), Int(2)}
    ensures !Grants(role, name, action)
    ensures !Allows([role], name, action)
  {
  }

  // ---------------------------------------------------------------------------
  // Public contacts

  /** A user row: its columns, its affiliate relation and its positions. */
  datatype User = User(columns: map<string, Value>, affiliate: Value, positions: seq<Value>)

  /** `$this->column`; a column the row lacks reads as null. */
  function Column(u: User, key: string): Value {
    if key in u.columns then u.columns[key] else Null
  }

  const BasicKeys: seq<string> := ["title", "first_name", "last_name", "email"]
  const ContactKeys: seq<string> :=
    ["birthday", "address1", "address2", "city", "state", "zip", "primary_phone", "mobile_phone"]
  /** The job keys; "affilate" is spelled as the application spells it. */
  const JobKeys: set<string> := {"affilate", "position"}

  /** Copies each named column of the user into `card`. */
  method CopyColumns(u: User, keys: seq<string>, card: map<string, Value>) returns (r: map<string, Value>)
    ensures r.Keys == card.Keys + set k | k in keys
    ensures forall k :: k in r ==> r[k] == if k in keys then Column(u, k) else card[k]
  {
    r := card;
    for i := 0 to |keys|
      invariant r.Keys == card.Keys + set k | k in keys[..i]
      invariant forall k :: k in r ==> r[k] == if k in keys[..i] then Column(u, k) else card[k]
    {
      assert keys[..i + 1] == keys[..i] + [keys[i]];
      r := r[keys[i] := Column(u, keys[i])];
    }
    assert keys[..|keys|] == keys;
  }

  /** No key belongs to two groups. */
  lemma KeyGroupsDisjoint()
    ensures forall k :: k in BasicKeys ==> k !in ContactKeys && k !in JobKeys
    ensures forall k :: k in ContactKeys ==> k !in JobKeys
  {
  }

  /** `getPublicContacts`: each group of keys is present exactly when its
    * `is_public_*` flag is truthy, and holds the user's own values; the
    * position is the first one, or null when there is none. With every
    * flag off the card is empty. */
  method PublicContacts(u: User) returns (card: map<string, Value>)
    ensures forall k :: k in BasicKeys ==> (k in card <==> !IsEmpty(Column(u, "is_public_basic")))
    ensures forall k :: k in ContactKeys ==> (k in card <==> !IsEmpty(Column(u, "is_public_contact")))
    ensures forall k :: k in JobKeys ==> (k in card <==> !IsEmpty(Column(u, "is_public_job")))
    ensures forall k :: k in card ==> k in BasicKeys || k in ContactKeys || k in JobKeys
    ensures forall k :: k in card && k !in JobKeys ==> card[k] == Column(u, k)
    ensures "affilate" in card ==> card["affilate"] == u.affiliate
    ensures "position" in card ==> card["position"] == if |u.positions| > 0 then u.positions[0] else Null
    ensures (IsEmpty(Column(u, "is_public_basic")) && IsEmpty(Column(u, "is_public_contact"))
             && IsEmpty(Column(u, "is_public_job"))) ==> card == map[]
  {
    KeyGroupsDisjoint();
    card := ContactColumns(u);
    var showJob := !IsEmpty(Column(u, "is_public_job"));
    ghost var contacts := card;
    if showJob {
      card := card["affilate" := u.affiliate];
      card := card["position" := if |u.positions| > 0 then u.positions[0] else Null];
    }
    assert card.Keys == contacts.Keys + if showJob then JobKeys else {};
    assert forall k :: k in card && k !in JobKeys ==> k in contacts && card[k] == contacts[k];
  }

  /** The basic and contact groups of the card, each copied when its flag
    * is truthy. */
  method ContactColumns(u: User) returns (card: map<string, Value>)
    ensures card.Keys == (if !IsEmpty(Column(u, "is_public_basic")) then set k | k in BasicKeys else {})
                         + (if !IsEmpty(Column(u, "is_public_contact")) then set k | k in ContactKeys else {})
    ensures forall k :: k in card ==> card[k] == Column(u, k)
  {
    card := map[];
    if !IsEmpty(Column(u, "is_public_basic")) {
      card := CopyColumns(u, BasicKeys, card);
    }
    if !IsEmpty(Column(u, "is_public_contact")) {
      card := CopyColumns(u, ContactKeys, card);
    }
  }

  // ---------------------------------------------------------------------------
  // Serialisation

  /** The image and logo columns. */
  const PictureKeys: set<string> := {"image", "logo"}

  /** What `toArray` makes of an image or logo: a non-empty file name
    * becomes its URL under the admin site when that file exists remotely
    * and "" otherwise; null becomes ""; any other empty value stays. */
  function PictureValue(v: Value, adminUrl: string, remote: set<string>): (r: Value)
    ensures r != Null
    ensures v == Null ==> r == Str("")
    ensures IsEmpty(v) && v != Null ==> r == v
    ensures !IsEmpty(v) ==> r.Str? && (r.s == "" || r.s in remote)
  {
    if v == Null then Str("")
    else if IsEmpty(v) then v
    else
      var path := adminUrl + "/uploads/user/" + AsString(v);
      if path in remote then Str(path) else Str("")
  }

  /** `toArray` over the merged attributes: `remote` is the set of URLs
    * NetHelper finds, `timestamp` the Carbon reading of an m/d/Y birthday. */
  method ToArray(attributes: map<string, Value>, adminUrl: string, remote: set<string>, timestamp: string -> int)
    returns (r: map<string, Value>)
    ensures forall k :: k in PictureKeys && k in attributes ==> k in r && r[k] == PictureValue(attributes[k], adminUrl, remote)
    ensures forall k :: k in PictureKeys && k in r ==> r[k] != Null
    ensures "birthday" in attributes && !IsEmpty(attributes["birthday"]) ==>
      "birthday_timestamp" in r && r["birthday_timestamp"] == Int(timestamp(AsString(attributes["birthday"])))
    ensures forall k :: k in r && k !in PictureKeys && k != "birthday_timestamp" ==> k in attributes && r[k] == attributes[k]
    ensures forall k :: k in attributes ==> k in r
    ensures "birthday_timestamp" in r && "birthday_timestamp" !in attributes ==> "birthday" in attributes && !IsEmpty(attributes["birthday"])
  {
    r := attributes;
    if "image" in r && !IsEmpty(r["image"]) {
      var path := adminUrl + "/uploads/user/" + AsString(r["image"]);
      r := r["image" := if path in remote then Str(path) else Str("")];
    }
    if "logo" in r && !IsEmpty(r["logo"]) {
      var path := adminUrl + "/uploads/user/" + AsString(r["logo"]);
      r := r["logo" := if path in remote then Str(path) else Str("")];
    }
    if "birthday" in r && !IsEmpty(r["birthday"]) {
      r := r["birthday_timestamp" := Int(timestamp(AsString(r["birthday"])))];
    }
    if "image" in r && r["image"] == Null {
      r := r["image" := Str("")];
    }
    if "logo" in r && r["logo"] == Null {
      r := r["logo" := Str("")];
    }
  }
}
