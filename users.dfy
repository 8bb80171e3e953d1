/**
 * The server's user accounts.  The `user` table is a sequence of rows in
 * insertion order; ids come from a counter.  Request bodies are JSON
 * objects.  Password hashing and checking are parameters, and so are the
 * outcome of creating the user's folder and the folder tree the listing
 * walks.
 */
module Users {
  import opened Wrappers
  import opened Json
  import Text

  /** A row of the `user` table; the text columns hold whatever JSON value was stored. */
  datatype User = User(
    id: nat,
    username: Value,
    email: Value,
    password: Value,
    profilePicture: Value,
    school: Value,
    major: Value)

  /** `to_dict`: all seven columns, the password hash included. */
  function ToDict(u: User): (d: Object)
    ensures d.Keys == {"password", "id", "username", "email", "profilePicture", "school", "major"}
    ensures d["id"] == Num(u.id) && d["password"] == u.password
    ensures d["username"] == u.username && d["email"] == u.email
    ensures d["profilePicture"] == u.profilePicture && d["school"] == u.school && d["major"] == u.major
  {
    map["password" := u.password, "id" := Num(u.id), "username" := u.username, "email" := u.email,
        "profilePicture" := u.profilePicture, "school" := u.school, "major" := u.major]
  }

  /** The right-hand side of `==`: `None`, a user, or any other object. */
  datatype PyObject = PyNone | UserObject(user: User) | OtherObject

  /** `User.__eq__`: equal to another user with the same id, never to `None` or a non-user. */
  predicate UserEquals(self: User, other: PyObject) {
    if other.PyNone? then false
    else if !other.UserObject? then false
    else self.id == other.user.id
  }

  /** Users compare equal exactly when their ids agree, whatever their other columns. */
  lemma UserEqualsIffSameId(a: User, b: User)
    ensures UserEquals(a, UserObject(b)) <==> a.id == b.id
    ensures UserEquals(a, UserObject(b)) <==> UserEquals(b, UserObject(a))
    ensures !UserEquals(a, PyNone) && !UserEquals(a, OtherObject)
  {
  }

  datatype Body =
    | UserMessage(message: string, user: Object)
    | Record(record: Object)
    | ErrorMessage(error: string)

  datatype Response = Response(status: nat, body: Body)

  // ---------------------------------------------------------------------
  // Queries
  // ---------------------------------------------------------------------

  datatype Column = IdColumn | UsernameColumn | EmailColumn

  function ColumnValue(u: User, c: Column): Value {
    match c
    case IdColumn => Num(u.id)
    case UsernameColumn => u.username
    case EmailColumn => u.email
  }

  /** `filter_by(column=v).first()`: the position of the first row whose column equals `v`. */
  function FindFirst(rows: seq<User>, c: Column, v: Value): (r: Option<nat>)
    ensures r.Some? ==> r.value < |rows| && ColumnValue(rows[r.value], c) == v
    ensures r.Some? ==> forall j :: 0 <= j < r.value ==> ColumnValue(rows[j], c) != v
    ensures r.None? ==> forall j :: 0 <= j < |rows| ==> ColumnValue(rows[j], c) != v
  {
    if |rows| == 0 then None
    else if ColumnValue(rows[0], c) == v then Some(0)
    else match FindFirst(rows[1..], c, v)
      case None => None
      case Some(k) => Some(k + 1)
  }

  /** `get_user_by_id_controller`: the user with that id, if any. */
  function GetUserByIdController(rows: seq<User>, userId: int): (r: Option<User>)
    ensures r.Some? ==> r.value in rows && r.value.id == userId
    ensures r.None? ==> forall u :: u in rows ==> u.id != userId
  {
    match FindFirst(rows, IdColumn, Num(userId))
    case None => None
    case Some(k) => Some(rows[k])
  }

  /**
   * The route handler `get_user_by_id`: the user's record with 200, or an
   * error naming the id with 404.  Flask answers a (body, status) pair.
   */
  function GetUserByIdRoute(rows: seq<User>, userId: int): (r: Response)
    ensures r.status == 200 <==> exists u :: u in rows && u.id == userId
    ensures r.status == 200 ==> r.body.Record? && "id" in r.body.record && r.body.record["id"] == Num(userId)
    ensures r.status == 200 ==> r.body == Record(ToDict(GetUserByIdController(rows, userId).value))
    ensures r.status != 200 ==> r == Response(404, ErrorMessage("User with ID " + Text.IntToDecimal(userId) + " not found"))
  {
    match GetUserByIdController(rows, userId)
    case Some(u) => Response(200, Record(ToDict(u)))
    case None => Response(404, ErrorMessage("User with ID " + Text.IntToDecimal(userId) + " not found"))
  }

  /** Every id, username and e-mail appears in at most one row, and none of the three required columns is null. */
  ghost predicate TableConstraints(rows: seq<User>) {
    && (forall i, j :: 0 <= i < j < |rows| ==> rows[i].id != rows[j].id)
    && (forall i, j :: 0 <= i < j < |rows| ==> rows[i].username != rows[j].username)
    && (forall i, j :: 0 <= i < j < |rows| ==> rows[i].email != rows[j].email)
    && (forall i :: 0 <= i < |rows| ==> rows[i].username != Null && rows[i].email != Null && rows[i].password != Null)
  }

  /** Some row other than the one at `except` already holds this username or e-mail. */
  predicate Clashes(rows: seq<User>, u: User, except: int) {
    exists j :: 0 <= j < |rows| && j != except && (rows[j].username == u.username || rows[j].email == u.email)
  }

  // ---------------------------------------------------------------------
  // Login
  // ---------------------------------------------------------------------

  /** The account a login identifier names: the first e-mail match, else the first username match. */
  function LoginCandidate(rows: seq<User>, identifier: Value): (r: Option<nat>)
    ensures r.Some? ==> r.value < |rows|
    ensures (exists i :: 0 <= i < |rows| && rows[i].email == identifier) ==>
      r.Some? && rows[r.value].email == identifier
    ensures (forall i :: 0 <= i < |rows| ==> rows[i].email != identifier) ==>
      (r.Some? <==> exists i :: 0 <= i < |rows| && rows[i].username == identifier)
    ensures (forall i :: 0 <= i < |rows| ==> rows[i].email != identifier) && r.Some? ==>
      rows[r.value].username == identifier
  {
    match FindFirst(rows, EmailColumn, identifier)
    case Some(k) => Some(k)
    case None => FindFirst(rows, UsernameColumn, identifier)
  }

  /**
   * What `bcrypt.checkpw` accepts as a stored hash: text of the form
   * `$2?$...`.  Given anything else it raises "Invalid salt".
   */
  predicate IsBcryptHash(v: Value) {
    v.Str? && |v.s| >= 4 && v.s[0] == '$' && v.s[1] == '2' && v.s[3] == '$'
  }

  /** Every row's password column holds a hash. */
  ghost predicate PasswordsHashed(rows: seq<User>) {
    forall i :: 0 <= i < |rows| ==> IsBcryptHash(rows[i].password)
  }

  /**
   * `login_user`.  The account found by e-mail, else by username, is
   * returned with status 201 when the password checks against its hash; no
   * account or a failed check gives 401.  A password sent that is not a
   * string, or a stored value that is not a hash, makes the check itself
   * raise, which the framework answers with 500.
   */
  function LoginUser(rows: seq<User>, data: Object, checkpw: (string, string) -> bool): (r: Response)
    ensures r.status in {201, 401, 500}
    ensures r.status == 201 <==>
      var k := LoginCandidate(rows, Get(data, "emailOrUsername"));
      && k.Some?
      && Get(data, "password").Str? && IsBcryptHash(rows[k.value].password)
      && checkpw(Get(data, "password").s, rows[k.value].password.s)
    ensures r.status == 201 ==>
      r.body == UserMessage("User created successfully", ToDict(rows[LoginCandidate(rows, Get(data, "emailOrUsername")).value]))
    ensures r.status == 500 <==>
      var k := LoginCandidate(rows, Get(data, "emailOrUsername"));
      k.Some? && (!Get(data, "password").Str? || !IsBcryptHash(rows[k.value].password))
    ensures LoginCandidate(rows, Get(data, "emailOrUsername")).None? ==> r.status == 401
  {
    match LoginCandidate(rows, Get(data, "emailOrUsername"))
    case None => Response(401, ErrorMessage("Invalid email or password"))
    case Some(k) =>
      var password := Get(data, "password");
      if !password.Str? || !IsBcryptHash(rows[k].password) then Response(500, ErrorMessage("Internal Server Error"))
      else if checkpw(password.s, rows[k].password.s) then Response(201, UserMessage("User created successfully", ToDict(rows[k])))
      else Response(401, ErrorMessage("Invalid email or password"))
  }

  /** While every stored password is a hash, a log-in with a text password is answered 201 or 401, never 500. */
  lemma LoginNeverFailsOnHashedTable(rows: seq<User>, data: Object, checkpw: (string, string) -> bool)
    requires PasswordsHashed(rows)
    requires Get(data, "password").Str?
    ensures LoginUser(rows, data, checkpw).status in {201, 401}
  {
  }

  /** An e-mail match wins even when its password fails: the username is then not tried. */
  lemma EmailMatchShadowsUsername(rows: seq<User>, data: Object, checkpw: (string, string) -> bool, i: nat)
    requires i < |rows| && rows[i].email == Get(data, "emailOrUsername")
    requires forall j :: 0 <= j < |rows| && rows[j].email == Get(data, "emailOrUsername") ==>
      IsBcryptHash(rows[j].password) && Get(data, "password").Str? && !checkpw(Get(data, "password").s, rows[j].password.s)
    ensures LoginUser(rows, data, checkpw).status == 401
  {
  }

  // ---------------------------------------------------------------------
  // Update
  // ---------------------------------------------------------------------

  /** `data.get(column, user.column)` for the six columns: a key present in the body wins, even with a null value. */
  function MergeUpdate(u: User, data: Object): (r: User)
    ensures r.id == u.id
    ensures r.username == (if "username" in data then data["username"] else u.username)
    ensures r.email == (if "email" in data then data["email"] else u.email)
    ensures r.password == (if "password" in data then data["password"] else u.password)
    ensures r.profilePicture == (if "profilePicture" in data then data["profilePicture"] else u.profilePicture)
    ensures r.school == (if "school" in data then data["school"] else u.school)
    ensures r.major == (if "major" in data then data["major"] else u.major)
  {
    u.(username := if "username" in data then data["username"] else u.username,
       email := if "email" in data then data["email"] else u.email,
       password := if "password" in data then data["password"] else u.password,
       profilePicture := if "profilePicture" in data then data["profilePicture"] else u.profilePicture,
       school := if "school" in data then data["school"] else u.school,
       major := if "major" in data then data["major"] else u.major)
  }

  /** An update with the user's own record changes nothing; applying the same update twice is applying it once. */
  lemma MergeUpdateLaws(u: User, data: Object)
    ensures MergeUpdate(u, ToDict(u)) == u
    ensures MergeUpdate(u, map[]) == u
    ensures MergeUpdate(MergeUpdate(u, data), data) == MergeUpdate(u, data)
  {
  }

  /** The body with a text password replaced by its hash, the way `create_user` stores one. */
  function HashPasswordField(data: Object, hashpw: string -> string): (r: Object)
    ensures r.Keys == data.Keys
    ensures forall k :: k in data && k != "password" ==> r[k] == data[k]
    ensures "password" in data ==>
      r["password"] == (if data["password"].Str? then Str(hashpw(data["password"].s)) else data["password"])
  {
    if "password" in data && data["password"].Str? then data["password" := Str(hashpw(data["password"].s))] else data
  }

  /** The corrected merge: the columns `MergeUpdate` gives, except that a new text password is stored hashed. */
  function MergeUpdateHashed(u: User, data: Object, hashpw: string -> string): (r: User)
    ensures r.(password := u.password) == MergeUpdate(u, data).(password := u.password)
    ensures r.password ==
      if "password" !in data then u.password
      else if data["password"].Str? then Str(hashpw(data["password"].s))
      else data["password"]
  {
    MergeUpdate(u, HashPasswordField(data, hashpw))
  }

  /**
   * As written, a password changed by the update is stored as sent, so a
   * later log-in with it reaches the hash check with a stored value that is
   * not a hash, and fails with 500.
   */
  lemma UpdatedPasswordBreaksLogin(u: User, p: string, checkpw: (string, string) -> bool)
    requires !IsBcryptHash(Str(p))
    ensures var updated := MergeUpdate(u, map["password" := Str(p)]);
      LoginUser([updated], map["emailOrUsername" := u.email, "password" := Str(p)], checkpw).status == 500
  {
    var updated := MergeUpdate(u, map["password" := Str(p)]);
    var data := map["emailOrUsername" := u.email, "password" := Str(p)];
    assert ColumnValue([updated][0], EmailColumn) == Get(data, "emailOrUsername");
    assert LoginCandidate([updated], Get(data, "emailOrUsername")) == Some(0);
  }

  /** With the corrected merge, the new password logs in whenever bcrypt accepts it against its own hash. */
  lemma HashedUpdateLogsIn(u: User, p: string, hashpw: string -> string, checkpw: (string, string) -> bool)
    requires IsBcryptHash(Str(hashpw(p))) && checkpw(p, hashpw(p))
    ensures var updated := MergeUpdateHashed(u, map["password" := Str(p)], hashpw);
      LoginUser([updated], map["emailOrUsername" := u.email, "password" := Str(p)], checkpw).status == 201
  {
    var updated := MergeUpdateHashed(u, map["password" := Str(p)], hashpw);
    var data := map["emailOrUsername" := u.email, "password" := Str(p)];
    assert ColumnValue([updated][0], EmailColumn) == Get(data, "emailOrUsername");
    assert LoginCandidate([updated], Get(data, "emailOrUsername")) == Some(0);
  }

  // ---------------------------------------------------------------------
  // The table
  // ---------------------------------------------------------------------

  /** The body carries a truthy username, e-mail and password. */
  predicate RequiredPresent(data: Object) {
    Truthy(Get(data, "username")) && Truthy(Get(data, "email")) && Truthy(Get(data, "password"))
  }

  /** The row `create_user` builds: the password column holds the hash, never the password sent. */
  function NewRow(data: Object, id: nat, hashedPassword: string): (u: User)
    ensures u.id == id && u.password == Str(hashedPassword)
    ensures u.username == Get(data, "username") && u.email == Get(data, "email")
    ensures u.profilePicture == Get(data, "profilePicture") && u.school == Get(data, "school") && u.major == Get(data, "major")
  {
    User(id, Get(data, "username"), Get(data, "email"), Str(hashedPassword),
         Get(data, "profilePicture"), Get(data, "school"), Get(data, "major"))
  }

  /** Replacing a row by one with the same id, a hashed password and no clash keeps the table's constraints. */
  lemma ReplaceRowKeepsConstraints(rows: seq<User>, k: nat, u: User)
    requires TableConstraints(rows) && PasswordsHashed(rows) && k < |rows|
    requires u.id == rows[k].id && u.username != Null && u.email != Null && IsBcryptHash(u.password)
    requires !Clashes(rows, u, k)
    ensures TableConstraints(rows[k := u]) && PasswordsHashed(rows[k := u])
  {
  }

  /** Appending a row with a fresh id, a hashed password and no clash keeps the table's constraints. */
  lemma AppendRowKeepsConstraints(rows: seq<User>, u: User)
    requires TableConstraints(rows) && PasswordsHashed(rows)
    requires forall i :: 0 <= i < |rows| ==> rows[i].id < u.id
    requires u.username != Null && u.email != Null && IsBcryptHash(u.password)
    requires !Clashes(rows, u, -1)
    ensures TableConstraints(rows + [u]) && PasswordsHashed(rows + [u])
  {
  }

  class UserTable {
    var rows: seq<User>
    var nextId: nat

    ghost predicate Valid()
      reads this
    {
      TableConstraints(rows) && PasswordsHashed(rows) && forall i :: 0 <= i < |rows| ==> rows[i].id < nextId
    }

    constructor ()
      ensures Valid() && rows == [] && nextId == 1
    {
      rows := [];
      nextId := 1;
    }

    /**
     * `create_user`.  A missing or falsy username, e-mail or password gives
     * 400 and adds nothing; so does a username or e-mail already taken (the
     * unique columns reject the commit, which is rolled back).  A password
     * that is not a string cannot be hashed: 500, nothing added.  Otherwise
     * one row is added, holding the hash of the password.  Creating the
     * user's folder comes after the commit: if it fails the answer is 500
     * but the row stays.
     */
    method CreateUser(data: Object, hashpw: string -> string, makedirsSucceeds: bool) returns (r: Response)
      requires Valid()
      requires forall q :: IsBcryptHash(Str(hashpw(q)))
      modifies this
      ensures Valid()
      ensures r.status in {201, 400, 500}
      ensures !Truthy(Get(data, "username")) || !Truthy(Get(data, "email")) || !Truthy(Get(data, "password")) ==>
        r.status == 400 && rows == old(rows) && nextId == old(nextId)
      ensures RequiredPresent(data) && !Get(data, "password").Str? ==>
        r.status == 500 && rows == old(rows) && nextId == old(nextId)
      ensures RequiredPresent(data) && Get(data, "password").Str? ==>
        var newUser := NewRow(data, old(nextId), hashpw(Get(data, "password").s));
        if Clashes(old(rows), newUser, -1) then
          r.status == 400 && rows == old(rows) && nextId == old(nextId)
        else
          && rows == old(rows) + [newUser]
          && nextId == old(nextId) + 1
          && (makedirsSucceeds ==> r == Response(201, UserMessage("User created successfully", ToDict(newUser))))
          && (!makedirsSucceeds ==> r.status == 500)
    {
      var username, email, password := Get(data, "username"), Get(data, "email"), Get(data, "password");
      if !Truthy(username) || !Truthy(email) || !Truthy(password) {
        return Response(400, ErrorMessage("Username, email, and password are required"));
      }
      if !password.Str? {
        return Response(500, ErrorMessage("An error occurred"));
      }
      var hashedPassword := hashpw(password.s);
      var newUser := NewRow(data, nextId, hashedPassword);
      if Clashes(rows, newUser, -1) {
        return Response(400, ErrorMessage("Username or email already exists"));
      }
      AppendRowKeepsConstraints(rows, newUser);
      rows := rows + [newUser];
      nextId := nextId + 1;
      if !makedirsSucceeds {
        return Response(500, ErrorMessage("An error occurred"));
      }
      r := Response(201, UserMessage("User created successfully", ToDict(newUser)));
    }

    /**
     * `update_user_by_email`, with the password correction.  An unknown
     * e-mail gives 404.  Otherwise the row's six columns are merged with the
     * body, a new text password hashed first; a password that is not text
     * cannot be hashed, and a merge that nulls a required column or takes
     * another row's username or e-mail fails the commit: 500, rolled back.
     * Else the row is replaced and returned with 200.
     */
    method UpdateUserByEmail(email: string, data: Object, hashpw: string -> string) returns (r: Response)
      requires Valid()
      requires forall q :: IsBcryptHash(Str(hashpw(q)))
      modifies this`rows
      ensures Valid()
      ensures r.status in {200, 404, 500}
      ensures FindFirst(old(rows), EmailColumn, Str(email)).None? ==>
        r == Response(404, ErrorMessage("User with email " + email + " not found")) && rows == old(rows)
      ensures r.status != 200 ==> rows == old(rows)
      ensures r.status == 200 ==>
        var k := FindFirst(old(rows), EmailColumn, Str(email)).value;
        && rows == old(rows)[k := MergeUpdateHashed(old(rows)[k], data, hashpw)]
        && r.body == UserMessage("User updated successfully", ToDict(rows[k]))
      ensures r.status == 404 <==> FindFirst(old(rows), EmailColumn, Str(email)).None?
      ensures FindFirst(old(rows), EmailColumn, Str(email)).Some? ==>
        var k := FindFirst(old(rows), EmailColumn, Str(email)).value;
        var merged := MergeUpdateHashed(old(rows)[k], data, hashpw);
        (r.status == 500 <==>
          ("password" in data && !data["password"].Str?) || merged.username == Null || merged.email == Null || Clashes(old(rows), merged, k))
    {
      var found := FindFirst(rows, EmailColumn, Str(email));
      if found.None? {
        return Response(404, ErrorMessage("User with email " + email + " not found"));
      }
      var k := found.value;
      if "password" in data && !data["password"].Str? {
        return Response(500, ErrorMessage("An error occurred"));
      }
      var merged := MergeUpdateHashed(rows[k], data, hashpw);
      if merged.username == Null || merged.email == Null || Clashes(rows, merged, k) {
        return Response(500, ErrorMessage("An error occurred"));
      }
      ReplaceRowKeepsConstraints(rows, k, merged);
      rows := rows[k := merged];
      r := Response(200, UserMessage("User updated successfully", ToDict(merged)));
    }
  }

  // ---------------------------------------------------------------------
  // The folder listing of `get_user_files`
  // ---------------------------------------------------------------------

  /** An entry of the user's folder on disk, with its children in `os.listdir` order. */
  datatype FsNode = FsFile(name: string) | FsDir(name: string, children: seq<FsNode>)

  /** The JSON the listing returns; a hidden subdirectory leaves a `null` in its parent's list. */
  datatype Listing = Listing(name: string, files: seq<string>, subdirectories: seq<Option<Listing>>)

  /** A name starting with a dot.  Entries on disk never have empty names. */
  predicate Hidden(name: string) {
    |name| > 0 && name[0] == '.'
  }

  /** The names of the non-hidden files among `children`, in listing order. */
  function VisibleFiles(children: seq<FsNode>): (names: seq<string>)
    ensures forall n :: n in names <==> exists i :: 0 <= i < |children| && children[i] == FsFile(n) && !Hidden(n)
    ensures |names| <= |children|
  {
    if |children| == 0 then []
    else
      var rest := VisibleFiles(children[1..]);
      assert forall i :: 1 <= i < |children| ==> children[i] == children[1..][i - 1];
      if children[0].FsFile? && !Hidden(children[0].name) then [children[0].name] + rest else rest
  }

  /** The subdirectories among `children`, in listing order. */
  function Subdirectories(children: seq<FsNode>): (dirs: seq<FsNode>)
    ensures forall d :: d in dirs ==> d.FsDir? && d in children
    ensures forall i :: 0 <= i < |children| && children[i].FsDir? ==> children[i] in dirs
  {
    if |children| == 0 then []
    else
      var rest := Subdirectories(children[1..]);
      assert forall i :: 1 <= i < |children| ==> children[i] == children[1..][i - 1];
      if children[0].FsDir? then [children[0]] + rest else rest
  }

  /** `build_directory_structure(path)` as a value: what the listing of a directory is. */
  function ListingOf(dir: FsNode): Option<Listing>
    requires dir.FsDir?
    decreases dir, 1
  {
    if Hidden(dir.name) then None
    else Some(Listing(dir.name, VisibleFiles(dir.children), ListingsOf(Subdirectories(dir.children), dir)))
  }

  function ListingsOf(dirs: seq<FsNode>, ghost parent: FsNode): (r: seq<Option<Listing>>)
    requires forall d :: d in dirs ==> d.FsDir? && d < parent
    ensures |r| == |dirs|
    decreases parent, 0, |dirs|
  {
    if |dirs| == 0 then [] else [ListingOf(dirs[0])] + ListingsOf(dirs[1..], parent)
  }

  /** Entry `i` of a subdirectory list is that subdirectory's listing, `null` exactly when it is hidden. */
  lemma {:induction false} ListingsOfEntries(dirs: seq<FsNode>, parent: FsNode, i: nat)
    requires forall d :: d in dirs ==> d.FsDir? && d < parent
    requires i < |dirs|
    ensures ListingsOf(dirs, parent)[i] == ListingOf(dirs[i])
    ensures ListingsOf(dirs, parent)[i].None? <==> Hidden(dirs[i].name)
  {
    if i > 0 {
      ListingsOfEntries(dirs[1..], parent, i - 1);
    }
  }

  /** No name in a listing, of a directory or of a file, starts with a dot. */
  predicate NoHiddenNames(l: Listing)
    decreases l
  {
    && !Hidden(l.name)
    && (forall f :: f in l.files ==> !Hidden(f))
    && (forall i :: 0 <= i < |l.subdirectories| && l.subdirectories[i].Some? ==> NoHiddenNames(l.subdirectories[i].value))
  }

  lemma {:induction false} ListingHidesDotNames(dir: FsNode)
    requires dir.FsDir? && ListingOf(dir).Some?
    ensures NoHiddenNames(ListingOf(dir).value)
    decreases dir, 1
  {
    ListingsHideDotNames(Subdirectories(dir.children), dir);
  }

  lemma {:induction false} ListingsHideDotNames(dirs: seq<FsNode>, parent: FsNode)
    requires forall d :: d in dirs ==> d.FsDir? && d < parent
    ensures forall i :: 0 <= i < |dirs| && ListingsOf(dirs, parent)[i].Some? ==> NoHiddenNames(ListingsOf(dirs, parent)[i].value)
    decreases parent, 0, |dirs|
  {
    if |dirs| > 0 {
      if ListingOf(dirs[0]).Some? {
        ListingHidesDotNames(dirs[0]);
      }
      ListingsHideDotNames(dirs[1..], parent);
      assert forall i :: 1 <= i < |dirs| ==> ListingsOf(dirs, parent)[i] == ListingsOf(dirs[1..], parent)[i - 1];
    }
  }

  /**
   * `build_directory_structure`: a hidden directory gives `None`; otherwise
   * the directory's name, its visible files, and one entry per subdirectory
   * in listing order, appended one at a time.
   */
  method BuildDirectoryStructure(dir: FsNode) returns (structure: Option<Listing>)
    requires dir.FsDir?
    ensures structure == ListingOf(dir)
    ensures structure.Some? ==> structure.value.name == dir.name && structure.value.files == VisibleFiles(dir.children)
    decreases dir
  {
    if Hidden(dir.name) {
      return None;
    }
    var subdirectories: seq<Option<Listing>> := [];
    var i := 0;
    while i < |dir.children|
      invariant 0 <= i <= |dir.children|
      invariant subdirectories == ListingsOf(Subdirectories(dir.children[..i]), dir)
    {
      var child := dir.children[i];
      SubdirectoriesAppend(dir.children[..i], child);
      assert dir.children[..i + 1] == dir.children[..i] + [child];
      if child.FsDir? {
        var sub := BuildDirectoryStructure(child);
        ListingsOfAppend(Subdirectories(dir.children[..i]), child, dir);
        subdirectories := subdirectories + [sub];
        assert Subdirectories(dir.children[..i + 1]) == Subdirectories(dir.children[..i]) + [child];
      } else {
        assert Subdirectories(dir.children[..i + 1]) == Subdirectories(dir.children[..i]);
      }
      i := i + 1;
    }
    assert dir.children[..i] == dir.children;
    structure := Some(Listing(dir.name, VisibleFiles(dir.children), subdirectories));
  }

  lemma {:induction false} SubdirectoriesAppend(children: seq<FsNode>, child: FsNode)
    ensures Subdirectories(children + [child]) == Subdirectories(children) + (if child.FsDir? then [child] else [])
  {
    if |children| > 0 {
      assert (children + [child])[1..] == children[1..] + [child];
      SubdirectoriesAppend(children[1..], child);
    }
  }

  lemma {:induction false} ListingsOfAppend(dirs: seq<FsNode>, d: FsNode, parent: FsNode)
    requires forall x :: x in dirs + [d] ==> x.FsDir? && x < parent
    ensures ListingsOf(dirs + [d], parent) == ListingsOf(dirs, parent) + [ListingOf(d)]
    decreases |dirs|
  {
    if |dirs| > 0 {
      assert (dirs + [d])[1..] == dirs[1..] + [d];
      ListingsOfAppend(dirs[1..], d, parent);
    }
  }

  /** The 404 replies, the 500 reply of the catch-all handler, and the 200 listing. */
  datatype FilesReply = FilesNotFound(error: string) | FilesFailed(error: string) | FilesListing(listing: Option<Listing>)

  /**
   * `get_user_files`: 404 for an unknown user or a missing `data` entry,
   * 500 when that entry is a file (listing it raises), otherwise the
   * listing of that folder.
   */
  method GetUserFiles(rows: seq<User>, userId: int, dataFolder: Option<FsNode>) returns (reply: FilesReply)
    ensures GetUserByIdController(rows, userId).None? || dataFolder.None? <==> reply.FilesNotFound?
    ensures reply.FilesFailed? <==>
      GetUserByIdController(rows, userId).Some? && dataFolder.Some? && dataFolder.value.FsFile?
    ensures reply.FilesFailed? ==> reply.error == "An error occurred"
    ensures reply.FilesListing? ==> dataFolder.Some? && dataFolder.value.FsDir? && reply.listing == ListingOf(dataFolder.value)
  {
    if GetUserByIdController(rows, userId).None? {
      return FilesNotFound("User with ID " + Text.IntToDecimal(userId) + " not found");
    }
    if dataFolder.None? {
      return FilesNotFound("No folder found for user with ID " + Text.IntToDecimal(userId));
    }
    if dataFolder.value.FsFile? {
      return FilesFailed("An error occurred");
    }
    var structure := BuildDirectoryStructure(dataFolder.value);
    reply := FilesListing(structure);
  }
}
