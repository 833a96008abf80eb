/** The users table as the authentication core reads it
    (app/Models/UserModel.php): lookup by normalised e-mail within a tenant,
    lookup by id, the active-status checks, the status whitelist of
    `changeStatus`, and the `hashPassword` write callback. */
module Users {
  import opened Values
  import opened Text

  /** A users row. `status: None` stands for a row whose status is null or
      not selected; the column itself defaults to "active". */
  datatype User = User(
    id: int,
    tenantId: int,
    defaultBranchId: Option<int>,
    name: string,
    email: string,
    passwordHash: string,
    status: Option<string>)

  /** The only statuses `changeStatus` accepts. */
  const STATUSES: seq<string> := ["active", "inactive", "blocked"]

  /** The e-mail key a lookup compares with: `strtolower(trim($email))`. */
  function EmailKey(email: string): string {
    Lower(Trim(email))
  }

  /** Normalising an already normalised e-mail changes nothing, so the
      controller's own `strtolower(trim(...))` before the model's is harmless. */
  lemma EmailKeyIdempotent(email: string)
    ensures EmailKey(EmailKey(email)) == EmailKey(email)
  {
    var t := Trim(email);
    var k := Lower(t);
    if k != [] {
      assert !IsTrimChar(k[0]) && !IsTrimChar(k[|k| - 1]);
    }
    TrimOfPadded([], k, []);
    assert [] + k + [] == k;
    LowerIdempotent(t);
  }

  predicate MatchesLogin(u: User, key: string, tenantId: int) {
    u.email == key && u.tenantId == tenantId
  }

  class UserTable {
    var rows: seq<User>

    /** Primary keys are unique. */
    ghost predicate Valid()
      reads this
    {
      forall i, j :: 0 <= i < j < |rows| ==> rows[i].id != rows[j].id
    }

    constructor (initial: seq<User>)
      requires forall i, j :: 0 <= i < j < |initial| ==> initial[i].id != initial[j].id
      ensures Valid() && rows == initial
    {
      rows := initial;
    }

    /** `findByEmailAndTenant($email, $tenantId)`: the first user of that
        tenant whose stored e-mail equals the trimmed, lower-cased argument. */
    function FindByEmailAndTenant(email: string, tenantId: int): (r: Option<User>)
      reads this
      ensures r.Some? ==> r.value in rows && r.value.email == EmailKey(email) && r.value.tenantId == tenantId
      ensures r.None? <==> forall i :: 0 <= i < |rows| ==> !MatchesLogin(rows[i], EmailKey(email), tenantId)
    {
      var key := EmailKey(email);
      match FirstIndex(rows, (u: User) => MatchesLogin(u, key, tenantId))
      case None => None
      case Some(k) => Some(rows[k])
    }

    /** `find($id)`: the row with that primary key. */
    function Find(id: int): (r: Option<User>)
      reads this
      ensures r.Some? ==> r.value in rows && r.value.id == id
      ensures r.None? <==> forall i :: 0 <= i < |rows| ==> rows[i].id != id
    {
      match FirstIndex(rows, (u: User) => u.id == id)
      case None => None
      case Some(k) => Some(rows[k])
    }

    /** `findActive($id)`: the row with that id, only if its status is "active". */
    function FindActive(id: int): (r: Option<User>)
      reads this
      ensures r.Some? ==> r.value in rows && r.value.id == id && r.value.status == Some("active")
      ensures r.None? <==> forall i :: 0 <= i < |rows| ==> !(rows[i].id == id && rows[i].status == Some("active"))
    {
      match FirstIndex(rows, (u: User) => u.id == id && u.status == Some("active"))
      case None => None
      case Some(k) => Some(rows[k])
    }

    /** `isActive($id)`: the user exists and its status is "active"; a
        missing status counts as not active. */
    function IsActive(id: int): (b: bool)
      reads this
      ensures b <==> Find(id).Some? && Find(id).value.status == Some("active")
    {
      match Find(id)
      case None => false
      case Some(u) => u.status.GetOr("") == "active"
    }

    /** With unique ids, `isActive` and `findActive` agree. */
    lemma IsActiveIffFindActive(id: int)
      requires Valid()
      ensures IsActive(id) <==> FindActive(id).Some?
    {
      if FindActive(id).Some? {
        var u := FindActive(id).value;
        var i :| 0 <= i < |rows| && rows[i] == u;
        var f := Find(id).value;
        var j :| 0 <= j < |rows| && rows[j] == f;
        assert i == j;
      }
    }

    /** `changeStatus($id, $status)`: a status outside the whitelist is
        refused and nothing changes; otherwise the row with that id takes the
        new status and every other row and field stays as it was. */
    method ChangeStatus(id: int, status: string) returns (ok: bool)
      requires Valid()
      modifies this
      ensures Valid()
      ensures ok <==> status in STATUSES
      ensures !ok ==> rows == old(rows)
      ensures ok ==> |rows| == |old(rows)|
      ensures ok ==> forall i :: 0 <= i < |rows| ==>
                rows[i] == (if old(rows[i]).id == id then old(rows[i]).(status := Some(status)) else old(rows[i]))
    {
      if status !in STATUSES {
        return false;
      }
      rows := seq(|rows|, i requires 0 <= i < |rows| reads this =>
                if rows[i].id == id then rows[i].(status := Some(status)) else rows[i]);
      ok := true;
    }
  }

  /** The `hashPassword` callback on the row data of an insert or update: a
      string `password` is replaced by `password_hash`, computed by `hash`
      (PHP's `password_hash`); anything else leaves the data untouched. */
  function HashPassword(data: map<string, Value>, hash: string -> string): (r: map<string, Value>)
    ensures ("password" in data && data["password"].Str?) ==>
              && "password" !in r
              && r.Keys == data.Keys - {"password"} + {"password_hash"}
              && r["password_hash"] == Str(hash(data["password"].s))
              && forall k :: k in data && k != "password" && k != "password_hash" ==> r[k] == data[k]
    ensures !("password" in data && data["password"].Str?) ==> r == data
  {
    if "password" in data && data["password"].Str? then
      (data - {"password"})["password_hash" := Str(hash(data["password"].s))]
    else data
  }

  /** Data the callback has processed carries no plain `password`, so a
      second pass over it changes nothing. */
  lemma HashPasswordIdempotent(data: map<string, Value>, hash: string -> string)
    ensures HashPassword(HashPassword(data, hash), hash) == HashPassword(data, hash)
  {
  }

  /** The columns `insert` and `update` accept (`$allowedFields`). */
  const ALLOWED_FIELDS: set<string> := {"tenant_id", "default_branch_id", "name", "email", "password_hash", "status"}

  /** Field protection: the framework keeps only the allowed keys of the
      data, before the `beforeInsert` and `beforeUpdate` callbacks run. */
  function ProtectFields(data: map<string, Value>, allowed: set<string>): (r: map<string, Value>)
    ensures r.Keys == data.Keys * allowed
    ensures forall k :: k in r ==> r[k] == data[k]
  {
    map k | k in data.Keys * allowed :: data[k]
  }

  /** What reaches the table on `insert` or `update` as written: the fields
      are protected first and `hashPassword` runs on what is left. */
  function SaveDataAsWritten(data: map<string, Value>, hash: string -> string): map<string, Value> {
    HashPassword(ProtectFields(data, ALLOWED_FIELDS), hash)
  }

  /** As written, a plain `password` never reaches the callback: the row is
      saved with neither the password nor a hash of it. */
  lemma PasswordDroppedAsWritten(data: map<string, Value>, hash: string -> string)
    requires "password" in data && data["password"].Str? && "password_hash" !in data
    ensures var r := SaveDataAsWritten(data, hash);
            "password" !in r && "password_hash" !in r
  {
  }

  /** With `password` among the allowed fields, as the callback evidently
      expects, a plain password is saved as its hash, nothing else allowed
      is lost and nothing outside the table's columns is saved. */
  function SaveData(data: map<string, Value>, hash: string -> string): (r: map<string, Value>)
    ensures "password" in data && data["password"].Str? ==>
              && "password" !in r
              && "password_hash" in r && r["password_hash"] == Str(hash(data["password"].s))
              && r.Keys <= ALLOWED_FIELDS
    ensures forall k :: k in data && k in ALLOWED_FIELDS && k != "password_hash" ==> k in r && r[k] == data[k]
  {
    HashPassword(ProtectFields(data, ALLOWED_FIELDS + {"password"}), hash)
  }
}
