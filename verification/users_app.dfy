/**
 * The route handlers of the users application (`public/index.php`), without
 * the web framework around them: the `/users` list with its nickname search,
 * `POST /users/new`, which stores a submitted user under the next free id,
 * and `/users/{id}`, which shows a user or answers 404.
 *
 * A handler's result is a `Response`: the template it renders with its
 * view-model, a redirect, or a bare status. The JSON file `public/db/users`
 * is a `UserFile` object whose content is read and written whole.
 */
module UsersApp {

  import opened Wrappers
  import opened PhpStrings
  import opened PhpArrays

  /** One stored user, as decoded from the users file. */
  datatype User = User(id: int, nickname: string, email: string)

  /** The submitted `user` body parameter: field name to submitted value. */
  type Form = map<string, string>

  datatype Response =
    | UserList(users: seq<User>, username: Option<string>)  // users/index.phtml
    | NewUserForm(user: Form)                                // users/new.phtml
    | UserDetail(id: string, nickname: string)               // users/show.phtml
    | Redirect(route: string)                                // 302 to the named route
    | NotFound                                               // bare 404
  {
    /** The HTTP status code of the response. */
    function Status(): int {
      match this
      case Redirect(_) => 302
      case NotFound => 404
      case _ => 200
    }
  }

  /** No two users share an id. */
  predicate UniqueIds(users: seq<User>) {
    forall i, j :: 0 <= i < j < |users| ==> users[i].id != users[j].id
  }

  /**
   * The users file. `content` is `None` when the file is empty or does not
   * decode as JSON, and the decoded list otherwise.
   */
  class UserFile {
    var content: Option<seq<User>>

    constructor (content: Option<seq<User>>)
      ensures this.content == content
    {
      this.content := content;
    }

    /** The list `getUsers()` returns for the current content. */
    function Users(): seq<User>
      reads this
    {
      match content
      case None => []
      case Some(users) => users
    }

    /** `getUsers()`: the decoded list, or the empty list when nothing decodes. */
    method Load() returns (users: seq<User>)
      ensures users == Users()
    {
      users := Users();
    }

    /** `saveUsers($users)`: the whole file is overwritten with the list. */
    method Save(users: seq<User>)
      modifies this
      ensures content == Some(users)
      ensures Users() == users
    {
      content := Some(users);
    }
  }

  // ---------------------------------------------------------------------
  // GET /users

  /** PHP's truth value of the `username` query parameter: absent, "" and "0" are false. */
  predicate Truthy(query: Option<string>)
    ensures Truthy(query) ==> query.Some? && |query.value| > 0
    ensures query.Some? && |query.value| >= 2 ==> Truthy(query)
    ensures query.Some? && |query.value| == 1 ==> (Truthy(query) <==> query.value[0] != '0')
  {
    query.Some? && query.value != "" && query.value != "0"
  }

  /** The search keeps `u` when its lower-cased nickname contains the lower-cased term. */
  predicate NicknameMatches(u: User, term: string)
    ensures NicknameMatches(u, term) <==> exists i :: OccursAt(StrToLower(u.nickname), StrToLower(term), i)
  {
    StrContainsIff(StrToLower(u.nickname), StrToLower(term));
    StrContains(StrToLower(u.nickname), StrToLower(term))
  }

  /**
   * The list view: all users when the search term is false, otherwise the
   * users whose nickname contains the term ignoring ASCII case, in stored
   * order. The term is echoed into the view-model either way.
   */
  function ListUsers(users: seq<User>, username: Option<string>): (r: Response)
    ensures r.UserList? && r.username == username && r.Status() == 200
    ensures !Truthy(username) ==> r.users == users
    ensures Truthy(username) ==> IsSubsequence(r.users, users)
    ensures Truthy(username) ==>
      forall i :: 0 <= i < |r.users| ==> r.users[i] in users && NicknameMatches(r.users[i], username.value)
    ensures Truthy(username) ==>
      forall i :: 0 <= i < |users| && NicknameMatches(users[i], username.value) ==> users[i] in r.users
  {
    if Truthy(username) then
      var found := ArrayFilter(users, u => NicknameMatches(u, username.value));
      ArrayFilterIsSubsequence(users, u => NicknameMatches(u, username.value));
      UserList(found, username)
    else
      UserList(users, username)
  }

  /** A matching user appears in the result exactly as often as it is stored; any other user not at all. */
  lemma ListUsersMultiplicity(users: seq<User>, term: string, u: User)
    requires Truthy(Some(term))
    ensures multiset(ListUsers(users, Some(term)).users)[u]
         == if NicknameMatches(u, term) then multiset(users)[u] else 0
  {
    ArrayFilterCount(users, v => NicknameMatches(v, term), u);
  }

  /** Searching for a term and for its lower-cased form gives the same list. */
  lemma ListUsersIgnoresCase(users: seq<User>, term: string)
    requires Truthy(Some(term))
    ensures Truthy(Some(StrToLower(term)))
    ensures ListUsers(users, Some(term)).users == ListUsers(users, Some(StrToLower(term))).users
  {
    var lower := StrToLower(term);
    StrToLowerIdempotent(term);
    ArrayFilterCongruent(users, u => NicknameMatches(u, term), u => NicknameMatches(u, lower));
  }

  /** Searching "ali" among "Alice" and "bob" finds only "Alice". */
  lemma ListUsersExample()
    ensures ListUsers([User(1, "Alice", "a@example.com"), User(2, "bob", "b@example.com")], Some("ali")).users
         == [User(1, "Alice", "a@example.com")]
  {
    var alice := User(1, "Alice", "a@example.com");
    var bob := User(2, "bob", "b@example.com");
    assert StrToLower("ali") == "ali";
    assert StrToLower("Alice") == "alice";
    assert StrToLower("bob") == "bob";
    assert NicknameMatches(alice, "ali") by {
      assert "alice"[..3] == "ali";
    }
    assert !NicknameMatches(bob, "ali") by {
      assert "bob"[..3][0] != "ali"[0];
      assert !StrContains("bob"[1..], "ali");
    }
    assert [alice, bob][1..] == [bob];
  }

  // ---------------------------------------------------------------------
  // POST /users/new

  /** A submitted field; one that was not submitted reads as the empty string. */
  function FormField(form: Form, name: string): string {
    if name in form then form[name] else ""
  }

  /**
   * `array_merge($user, ['id' => $id])`: the submitted fields with the id
   * merged last, so a submitted `id` field is overridden.
   */
  function MergeId(form: Form, id: int): (u: User)
    ensures u.id == id
  {
    User(id, FormField(form, "nickname"), FormField(form, "email"))
  }

  /**
   * The id the next stored user gets: one more than the largest id in use,
   * or 1 when the list is empty.
   */
  function NextId(users: seq<User>): (id: int)
    ensures users == [] ==> id == 1
    ensures forall i :: 0 <= i < |users| ==> users[i].id < id
    ensures users != [] ==> exists i :: 0 <= i < |users| && users[i].id == id - 1
  {
    if |users| == 0 then 1
    else if |users| == 1 then users[0].id + 1
    else
      var rest := NextId(users[1..]);
      if users[0].id + 1 >= rest then users[0].id + 1 else rest
  }

  /** `array_column($users, 'id')`: the ids in stored order. */
  function IdColumn(users: seq<User>): (ids: seq<int>)
    ensures |ids| == |users|
    ensures forall i :: 0 <= i < |users| ==> ids[i] == users[i].id
  {
    seq(|users|, i requires 0 <= i < |users| => users[i].id)
  }

  /**
   * The id computation of the create handler: collect the ids, sort them
   * largest first, take the first one (0 when there is none) and add one.
   */
  method AssignId(users: seq<User>) returns (id: int)
    ensures id == NextId(users)
  {
    var ids := IdColumn(users);
    ids := RSort(ids);
    var lastId := if |ids| > 0 then ids[0] else 0;
    lastId := lastId + 1;
    id := lastId;
    if users != [] {
      var column := IdColumn(users);
      RSortHeadIsMaximum(column);
      var j :| 0 <= j < |users| && users[j].id == NextId(users) - 1;
      assert column[j] in column;
    }
  }

  /**
   * The create handler. An empty form re-renders the form and leaves the file
   * alone. Otherwise the submitted user, with the next id, is appended to the
   * stored list, the list is saved, and the response redirects to the list.
   */
  method StoreUser(db: UserFile, form: Form) returns (r: Response)
    modifies db
    ensures form == map[] ==> r == NewUserForm(form) && db.content == old(db.content)
    ensures form != map[] ==> r == Redirect("users") && r.Status() == 302
    ensures form != map[] ==> db.Users() == old(db.Users()) + [MergeId(form, NextId(old(db.Users())))]
    ensures form != map[] ==> forall i :: 0 <= i < |old(db.Users())| ==> old(db.Users())[i].id < db.Users()[|db.Users()| - 1].id
    ensures UniqueIds(old(db.Users())) ==> UniqueIds(db.Users())
  {
    if form == map[] {
      return NewUserForm(form);
    }
    var users := db.Load();
    var id := AssignId(users);
    if UniqueIds(users) {
      NextIdKeepsIdsUnique(users, MergeId(form, id));
    }
    users := users + [MergeId(form, id)];
    db.Save(users);
    r := Redirect("users");
  }

  /** The next id is fresh: appending a record with it keeps the ids unique. */
  lemma NextIdKeepsIdsUnique(users: seq<User>, u: User)
    requires UniqueIds(users) && u.id == NextId(users)
    ensures UniqueIds(users + [u])
  {
  }

  /** With stored ids 3, 5 and 2 the new user gets id 6. */
  lemma NextIdExample()
    ensures NextId([User(3, "alpha", "a@example.com"), User(5, "bravo", "b@example.com"), User(2, "delta", "d@example.com")]) == 6
  {
  }

  // ---------------------------------------------------------------------
  // GET /users/{id}

  /** `$user->id == $args['id']`, for a route argument in canonical decimal form. */
  predicate IdMatches(u: User, arg: string)
    ensures IdMatches(u, arg) && u.id >= 0 ==>
      (forall i :: 0 <= i < |arg| ==> IsDigit(arg[i])) && DigitsValue(arg) == u.id
    ensures IdMatches(u, arg) && u.id < 0 ==>
      |arg| > 1 && arg[0] == '-' && (forall i :: 1 <= i < |arg| ==> IsDigit(arg[i])) && DigitsValue(arg[1..]) == -u.id
  {
    DigitsRoundTrip(if u.id >= 0 then u.id else -u.id);
    IntToString(u.id) == arg
  }

  /**
   * The detail view: 404 when no stored user has the requested id, otherwise
   * the route argument and the nickname "user-" followed by it.
   */
  function ShowUser(users: seq<User>, arg: string): (r: Response)
    ensures r.NotFound? <==> forall i :: 0 <= i < |users| ==> !IdMatches(users[i], arg)
    ensures !r.NotFound? ==> r == UserDetail(arg, "user-" + arg)
  {
    var found := ArrayFilter(users, u => IdMatches(u, arg));
    if |found| == 0 then NotFound
    else
      assert found[0] in users && IdMatches(found[0], arg);
      UserDetail(arg, "user-" + arg)
  }

  /** Looked up by the decimal form of an integer id, the answer is 404 exactly when that id is not stored. */
  lemma ShowUserById(users: seq<User>, id: int)
    ensures ShowUser(users, IntToString(id)).Status() == 404 <==> forall i :: 0 <= i < |users| ==> users[i].id != id
    ensures ShowUser(users, IntToString(id)).Status() != 404 ==>
      ShowUser(users, IntToString(id)) == UserDetail(IntToString(id), "user-" + IntToString(id))
  {
    forall i | 0 <= i < |users| && IdMatches(users[i], IntToString(id))
      ensures users[i].id == id
    {
      IntToStringInjective(users[i].id, id);
    }
  }
}
