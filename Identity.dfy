/** Users as the middleware and the controllers see them. The User model file
    is not part of this model; its fields are the ones the controllers read. */
module Identity {
  import opened JsBuiltins

  type UserId = nat

  const AdminRole := "admin"
  const UserRole := "user"

  /** A user document loaded with `.select('-password')`: every field but the
      password. */
  datatype User = User(id: UserId, name: string, email: string, role: string, avatar: Option<string>)

  /** A stored user document: the fields above together with the (hashed)
      password. */
  datatype Account = Account(user: User, password: string)

  /** `req.user?.role === 'admin'` */
  predicate IsAdmin(user: Option<User>) {
    user.Some? && user.value.role == AdminRole
  }

  /** `User.findById(id).select('-password')`: the user whose id is id, if
      there is one; the first such in insertion order. */
  function FindById(accounts: seq<Account>, id: UserId): (r: Option<User>)
    ensures r.None? <==> forall i :: 0 <= i < |accounts| ==> accounts[i].user.id != id
    ensures r.Some? ==> r.value.id == id
    ensures r.Some? ==>
      exists i :: 0 <= i < |accounts| && accounts[i].user == r.value &&
        forall j :: 0 <= j < i ==> accounts[j].user.id != id
    decreases |accounts|
  {
    if accounts == [] then None
    else if accounts[0].user.id == id then Some(accounts[0].user)
    else
      var r := FindById(accounts[1..], id);
      if r.Some? then
        var i :| 0 <= i < |accounts[1..]| && accounts[1..][i].user == r.value &&
          forall j :: 0 <= j < i ==> accounts[1..][j].user.id != id;
        assert accounts[i + 1].user == r.value;
        assert forall j :: 1 <= j < i + 1 ==> accounts[j] == accounts[1..][j - 1];
        r
      else
        assert forall j :: 1 <= j < |accounts| ==> accounts[j] == accounts[1..][j - 1];
        r
  }

  /** The users collection: users are numbered in insertion order. */
  predicate WellNumbered(accounts: seq<Account>) {
    forall i :: 0 <= i < |accounts| ==> accounts[i].user.id == i
  }

  /** In a well-numbered collection the user with id i is the i-th one. */
  lemma FindByIdWellNumbered(accounts: seq<Account>, id: UserId)
    requires WellNumbered(accounts)
    ensures id < |accounts| ==> FindById(accounts, id) == Some(accounts[id].user)
    ensures id >= |accounts| ==> FindById(accounts, id).None?
  {
    if id < |accounts| {
      var r := FindById(accounts, id);
      assert accounts[id].user.id == id;
      var i :| 0 <= i < |accounts| && accounts[i].user == r.value &&
        forall j :: 0 <= j < i ==> accounts[j].user.id != id;
      assert accounts[i].user.id == i;
    }
  }
}
