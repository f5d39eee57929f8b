/** The `users` input of the action-based task-assignation filter: the records
    `InvolvedUsersData` and `Membership`, and `parseInvolvedUsersJson`, which reads a
    parsed JSON tree into them, substituting defaults for missing or ill-typed fields. */
module InvolvedUsers {
  import opened JavaLang
  import opened Json

  /** `record Membership(Long groupId, Long roleId, String memberShipsRef)`; `None` is `null`. */
  datatype Membership = Membership(groupId: Option<Int64>, roleId: Option<Int64>, memberShipsRef: Option<string>)

  /** `record InvolvedUsersData(boolean initiator, List<Long> users, List<Membership> memberships)`. */
  datatype InvolvedUsersData = InvolvedUsersData(initiator: bool, users: seq<Int64>, memberships: seq<Membership>)

  const NullOrEmptyMessage := "Input JSON string cannot be null or empty."
  const InvalidFormatMessage := "Failed to parse JSON string. Invalid format."

  /** The elements of `root.get(key)` when that field is an array; `None` otherwise. */
  function ArrayField(root: Json, key: string): Option<seq<Json>>
  {
    match Get(root, key)
    case Some(JArray(elems)) => Some(elems)
    case _ => None
  }

  /** A field of a membership element: `node.has(key) ? convert(node.get(key)) : null`. */
  function OptionalField<T>(node: Json, key: string, convert: Json -> T): (r: Option<T>)
    ensures r.Some? <==> Has(node, key)
    ensures r.Some? ==> r.value == convert(Get(node, key).value)
  {
    if Has(node, key) then Some(convert(Get(node, key).value)) else None
  }

  /** One element of `memberShips` mapped to a `Membership` (lines 247-251). */
  function MembershipOf(node: Json, jk: Jackson): (m: Membership)
    ensures m.groupId.Some? <==> Has(node, "groupId")
    ensures m.roleId.Some? <==> Has(node, "roleId")
    ensures m.memberShipsRef.Some? <==> Has(node, "memberShipsRef")
    ensures m.groupId.Some? ==> m.groupId.value == jk.asLong(Get(node, "groupId").value)
    ensures m.roleId.Some? ==> m.roleId.value == jk.asLong(Get(node, "roleId").value)
    ensures m.memberShipsRef.Some? ==> m.memberShipsRef.value == jk.asText(Get(node, "memberShipsRef").value)
  {
    Membership(
      OptionalField(node, "groupId", jk.asLong),
      OptionalField(node, "roleId", jk.asLong),
      OptionalField(node, "memberShipsRef", jk.asText))
  }

  /** The data a successful parse of the tree `root` yields (lines 229-257): `initiator`
      is false unless the field is a boolean; `users` and `memberships` are empty unless
      the field is an array, and otherwise follow that array element for element, in
      order; no membership element is dropped. */
  function InvolvedUsersOf(root: Json, jk: Jackson): (d: InvolvedUsersData)
    ensures d.initiator <==> Get(root, "initiator") == Some(JBool(true))
    ensures ArrayField(root, "users").None? ==> d.users == []
    ensures ArrayField(root, "users").Some? ==>
      var elems := ArrayField(root, "users").value;
      |d.users| == |elems| && forall i :: 0 <= i < |elems| ==> d.users[i] == jk.asLong(elems[i])
    ensures ArrayField(root, "memberShips").None? ==> d.memberships == []
    ensures ArrayField(root, "memberShips").Some? ==>
      var elems := ArrayField(root, "memberShips").value;
      |d.memberships| == |elems| &&
      forall i :: 0 <= i < |elems| ==> d.memberships[i] == MembershipOf(elems[i], jk)
  {
    var initiator := match Get(root, "initiator") case Some(JBool(b)) => b case _ => false;
    var users: seq<Int64> := match ArrayField(root, "users")
      case Some(elems) => seq<Int64>(|elems|, i requires 0 <= i < |elems| => jk.asLong(elems[i]))
      case None => [];
    var memberships: seq<Membership> := match ArrayField(root, "memberShips")
      case Some(elems) => seq(|elems|, i requires 0 <= i < |elems| => MembershipOf(elems[i], jk))
      case None => [];
    InvolvedUsersData(initiator, users, memberships)
  }

  /** What `parseInvolvedUsersJson(json)` returns or throws; `None` stands for `null`. */
  function ParseSpec(json: Option<string>, jk: Jackson): Result<InvolvedUsersData, Exc>
  {
    if json.None? || json.value == [] then
      Failure(Thrown(IllegalArgumentException, NullOrEmptyMessage, None))
    else
      match jk.readTree(json.value)
      case Tree(root) => Success(InvolvedUsersOf(root, jk))
      case other => Failure(Thrown(IllegalArgumentException, InvalidFormatMessage, Some(ReadException(other))))
  }

  /** The `forEach` that copies a `users` array into an `ArrayList` (lines 237-238). */
  method CollectUserIds(elems: seq<Json>, jk: Jackson) returns (userIds: seq<Int64>)
    ensures |userIds| == |elems|
    ensures forall i :: 0 <= i < |elems| ==> userIds[i] == jk.asLong(elems[i])
  {
    userIds := [];
    for k := 0 to |elems|
      invariant |userIds| == k
      invariant forall i :: 0 <= i < k ==> userIds[i] == jk.asLong(elems[i])
    {
      userIds := userIds + [jk.asLong(elems[k])];
    }
  }

  /** `parseInvolvedUsersJson`: `null` or empty text is rejected, any failure to read the
      tree is re-thrown as "Failed to parse JSON string. Invalid format.", and a tree is
      read field by field with defaults. */
  method ParseInvolvedUsersJson(json: Option<string>, jk: Jackson) returns (r: Result<InvolvedUsersData, Exc>)
    ensures json.None? || json.value == [] ==>
      r == Failure(Thrown(IllegalArgumentException, NullOrEmptyMessage, None))
    ensures json.Some? && json.value != [] && !jk.readTree(json.value).Tree? ==>
      r == Failure(Thrown(IllegalArgumentException, InvalidFormatMessage, Some(ReadException(jk.readTree(json.value)))))
    ensures json.Some? && json.value != [] && jk.readTree(json.value).Tree? ==>
      r == Success(InvolvedUsersOf(jk.readTree(json.value).root, jk))
    ensures r == ParseSpec(json, jk)
  {
    if json.None? || json.value == [] {
      return Failure(Thrown(IllegalArgumentException, NullOrEmptyMessage, None));
    }
    var read := jk.readTree(json.value);
    if !read.Tree? {
      return Failure(Thrown(IllegalArgumentException, InvalidFormatMessage, Some(ReadException(read))));
    }
    var root := read.root;
    var initiator := match Get(root, "initiator") case Some(JBool(b)) => b case _ => false;
    var users: seq<Int64> := [];
    var usersField := ArrayField(root, "users");
    if usersField.Some? {
      users := CollectUserIds(usersField.value, jk);
    }
    var memberships: seq<Membership> := [];
    var membershipsField := ArrayField(root, "memberShips");
    if membershipsField.Some? {
      var elems := membershipsField.value;
      memberships := seq(|elems|, i requires 0 <= i < |elems| => MembershipOf(elems[i], jk));
    }
    assert users == InvolvedUsersOf(root, jk).users;
    r := Success(InvolvedUsersData(initiator, users, memberships));
  }

  /** A tree whose root is not an object (an array, a scalar, the missing node) parses
      successfully, to all defaults. */
  lemma NonObjectRootGivesDefaults(root: Json, jk: Jackson)
    requires !root.JObject?
    ensures InvolvedUsersOf(root, jk) == InvolvedUsersData(false, [], [])
  {
  }
}
