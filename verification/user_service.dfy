/**
 * The user service: a create/read/update/delete facade over a user
 * repository, plus the username lookup used by authentication.
 *
 * The repository is modelled as a table from id to stored User object
 * (`store`), the order in which a full scan returns its entries (`order`)
 * and the next id the identity column hands out (`nextId`). The password
 * encoder is an uninterpreted function supplied at construction.
 */
module UserService {
  import opened UserModel

  /** What the authentication lookup yields: the user, or the not-found error with its message. */
  datatype LoadResult = Found(user: User) | UsernameNotFound(message: string)

  /** The message of the not-found error raised for `username`. */
  function NotFoundMessage(username: string): (r: string)
    ensures |r| == |username| + 32
    ensures r[20..20 + |username|] == username
  {
    "User with username='" + username + "' not found."
  }

  /** The keys of `s` other than `k`, in their order. */
  function Without(s: seq<int>, k: int): (r: seq<int>)
    ensures forall x :: x in r <==> x in s && x != k
    ensures Distinct(s) ==> Distinct(r)
    ensures k !in s ==> r == s
  {
    if s == [] then []
    else if s[0] == k then Without(s[1..], k)
    else
      var rest := Without(s[1..], k);
      assert Distinct(s) ==> s[0] !in s[1..];
      [s[0]] + rest
  }

  /** The users stored under the keys `ks`, in that order. */
  function UsersAt(ks: seq<int>, m: map<int, User>): (r: seq<User>)
    requires forall i :: 0 <= i < |ks| ==> ks[i] in m
    ensures |r| == |ks|
    ensures forall i :: 0 <= i < |ks| ==> r[i] == m[ks[i]]
  {
    if ks == [] then [] else [m[ks[0]]] + UsersAt(ks[1..], m)
  }

  /** The first user, in the order `ks`, whose email is `email`; null when there is none. */
  function FirstByEmail(ks: seq<int>, m: map<int, User>, email: string): (r: User?)
    reads m.Values
    requires forall i :: 0 <= i < |ks| ==> ks[i] in m
    ensures r == null <==> forall i :: 0 <= i < |ks| ==> m[ks[i]].email != email
    ensures r != null ==> r.email == email && exists i :: 0 <= i < |ks| && m[ks[i]] == r
  {
    if ks == [] then null
    else if m[ks[0]].email == email then m[ks[0]]
    else
      var r := FirstByEmail(ks[1..], m, email);
      assert r != null ==> exists i :: 0 <= i < |ks| - 1 && m[ks[1..][i]] == r;
      r
  }

  /** A duplicate-free sequence has as many elements as its set of elements. */
  lemma {:induction false} DistinctCount(s: seq<int>)
    requires Distinct(s)
    ensures |set x | x in s| == |s|
  {
    if s != [] {
      DistinctCount(s[1..]);
      assert (set x | x in s) == {s[0]} + (set x | x in s[1..]);
      assert s[0] !in (set x | x in s[1..]);
    }
  }

  /**
   * The state an update gives the stored user `u` for the patch `p`: the
   * patch's email, age, names and roles; the patch's password, encoded,
   * when it has one, and `u`'s password otherwise; `u`'s id.
   */
  function Patched(u: UserRecord, p: UserRecord, encode: string -> string): (r: UserRecord)
    ensures r.id == u.id
    ensures r == p.(id := u.id, password := r.password)
    ensures p.password.Some? ==> r.password == Some(encode(p.password.value))
    ensures p.password.None? ==> r.password == u.password
  {
    var password := if p.password.Some? then Some(encode(p.password.value)) else u.password;
    u.(email := p.email, password := password, age := p.age,
       firstName := p.firstName, lastName := p.lastName, roles := p.roles)
  }

  /** An update replaces rather than merges: the old state matters only through its id and, without a new password, its password. */
  lemma PatchIsReplacement(u1: UserRecord, u2: UserRecord, p: UserRecord, encode: string -> string)
    requires u1.id == u2.id
    requires p.password.None? ==> u1.password == u2.password
    ensures Patched(u1, p, encode) == Patched(u2, p, encode)
  {
  }

  /** An empty password in the patch is encoded and stored like any other: only a null password keeps the old one. */
  lemma EmptyPasswordIsEncoded(u: UserRecord, p: UserRecord, encode: string -> string)
    requires p.password == Some("")
    ensures Patched(u, p, encode).password == Some(encode(""))
  {
  }

  /** Applying a second patch after a first equals applying the second alone, when the second supplies a password. */
  lemma PatchOverwritesPatch(u: UserRecord, p: UserRecord, q: UserRecord, encode: string -> string)
    requires q.password.Some?
    ensures Patched(Patched(u, p, encode), q, encode) == Patched(u, q, encode)
  {
  }

  /**
   * The repository's invariant: every stored user carries its key as id and
   * keeps a duplicate-free role collection; keys are below the next id; the
   * scan order lists every key exactly once.
   */
  ghost predicate Repository(store: map<int, User>, order: seq<int>, nextId: int)
    reads store.Values
  {
    && (forall k :: k in store ==> store[k].id == Some(k) && store[k].Valid() && k < nextId)
    && Distinct(order)
    && (forall i :: 0 <= i < |order| ==> order[i] in store)
    && (forall k :: k in store ==> k in order)
  }

  class UserServiceImpl {
    var store: map<int, User>
    var order: seq<int>
    var nextId: int
    const encode: string -> string

    ghost predicate Valid()
      reads this, store.Values
    {
      Repository(store, order, nextId)
    }

    /**
     * The service over an injected repository, which already holds `store`
     * scanned in `order` and will hand out `nextId` next, and over the
     * password encoder `encode`.
     */
    constructor (store: map<int, User>, order: seq<int>, nextId: int, encode: string -> string)
      requires Repository(store, order, nextId)
      ensures Valid()
      ensures this.store == store && this.order == order && this.nextId == nextId
      ensures this.encode == encode
    {
      this.store := store;
      this.order := order;
      this.nextId := nextId;
      this.encode := encode;
    }

    /**
     * The repository's save: a new entity (no id yet) is stored under the
     * next id and appended to the scan order; an entity already stored under
     * its id stays where it is.
     */
    method Save(user: User) returns (saved: User)
      requires Valid() && user.Valid()
      requires user.id.Some? ==> user.id.value in store && store[user.id.value] == user
      modifies this, user
      ensures Valid() && saved == user
      ensures old(user.id).None? ==>
                && old(nextId) !in old(store)
                && user.Record() == old(user.Record()).(id := Some(old(nextId)))
                && store == old(store)[old(nextId) := user]
                && order == old(order) + [old(nextId)]
      ensures old(user.id).Some? ==>
                && user.Record() == old(user.Record())
                && store == old(store) && order == old(order) && nextId == old(nextId)
    {
      if user.id.None? {
        var k := nextId;
        assert forall j :: j in store ==> store[j] != user;
        user.id := Some(k);
        store := store[k := user];
        order := order + [k];
        nextId := nextId + 1;
      } else {
        store := store[user.id.value := user];
        assert store == old(store);
      }
      saved := user;
    }

    /** Saves a new user as given (its password is not encoded) under a fresh id. */
    method Create(user: User) returns (saved: User)
      requires Valid() && user.Valid()
      requires user.id.None?
      modifies this, user
      ensures Valid()
      ensures saved == user && old(nextId) !in old(store)
      ensures user.Record() == old(user.Record()).(id := Some(old(nextId)))
      ensures store == old(store)[old(nextId) := user]
      ensures order == old(order) + [old(nextId)]
      ensures forall k :: k in old(store) ==> store[k].Record() == old(store[k].Record())
    {
      assert forall k :: k in store ==> store[k] != user;
      saved := Save(user);
    }

    /** The first `count` users of a full scan, or all of them when there are fewer. */
    method List(count: int) returns (list: seq<User>)
      requires Valid()
      ensures |list| == if count <= 0 then 0 else if count < |order| then count else |order|
      ensures list == UsersAt(order, store)[..|list|]
    {
      list := [];
      var i := 0;
      while i < |order| && i < count
        invariant 0 <= i <= |order|
        invariant count <= 0 ==> i == 0
        invariant count > 0 ==> i <= count
        invariant list == UsersAt(order, store)[..i]
      {
        var user := store[order[i]];
        list := list + [user];
        i := i + 1;
      }
    }

    /** Every stored user, in scan order, each once. */
    method ListAll() returns (list: seq<User>)
      requires Valid()
      ensures list == UsersAt(order, store)
      ensures |list| == |store|
      ensures forall k :: k in store ==> store[k] in list
    {
      list := [];
      for i := 0 to |order|
        invariant list == UsersAt(order, store)[..i]
      {
        list := list + [store[order[i]]];
      }
      assert list == UsersAt(order, store);
      DistinctCount(order);
      forall k | k in store ensures k in (set x | x in order) {
        assert k in order;
      }
      assert (set x | x in order) == store.Keys;
      forall k | k in store ensures store[k] in list {
        var i :| 0 <= i < |order| && order[i] == k;
        assert list[i] == store[k];
      }
    }

    /** The user stored under `id`, or null. */
    method Find(id: int) returns (user: User?)
      ensures user != null <==> id in store
      ensures user != null ==> user == store[id]
    {
      if id in store {
        user := store[id];
      } else {
        user := null;
      }
    }

    /** Deletes the entry under the user's id; a user without an id, or with an id not stored, is ignored. */
    method Delete(user: User)
      requires Valid()
      modifies this
      ensures Valid()
      ensures nextId == old(nextId)
      ensures user.id.Some? && user.id.value in old(store) ==>
                store == old(store) - {user.id.value} && order == Without(old(order), user.id.value)
      ensures !(user.id.Some? && user.id.value in old(store)) ==>
                store == old(store) && order == old(order)
    {
      if user.id.Some? && user.id.value in store {
        var k := user.id.value;
        ghost var was := order;
        store := store - {k};
        order := Without(order, k);
        forall i | 0 <= i < |order| ensures order[i] in store {
          assert order[i] in was;
        }
      }
    }

    /** Deletes the user stored under `id`; an absent id changes nothing and is not an error. */
    method DeleteById(id: int)
      requires Valid()
      modifies this
      ensures Valid()
      ensures nextId == old(nextId)
      ensures id in old(store) ==> store == old(store) - {id} && order == Without(old(order), id)
      ensures id !in old(store) ==> store == old(store) && order == old(order)
    {
      var usr := Find(id);
      if usr != null {
        Delete(usr);
      }
    }

    /**
     * Overwrites the user stored under `id` with the patch: null when `id` is
     * absent; the loaded user, unchanged, when the patch is null.
     */
    method Update(id: int, patch: User?) returns (user: User?)
      requires Valid()
      requires patch != null ==> patch.Valid()
      modifies this, store.Values
      ensures Valid()
      ensures store == old(store) && order == old(order) && nextId == old(nextId)
      ensures user != null <==> id in store
      ensures user != null ==> user == store[id]
      ensures user != null && patch == null ==> user.Record() == old(user.Record())
      ensures user != null && patch != null ==>
                user.Record() == Patched(old(user.Record()), old(patch.Record()), encode)
      ensures forall k :: k in store && k != id ==> store[k].Record() == old(store[k].Record())
    {
      user := Find(id);
      if user == null {
        return;
      }
      if patch != null {
        ghost var p := patch.Record();
        ghost var patched := Patched(user.Record(), p, encode);
        user.SetEmail(patch.email);
        if patch.password.Some? {
          user.SetPassword(Some(encode(patch.password.value)));
        }
        user.SetAge(patch.age);
        user.SetFirstName(patch.firstName);
        user.SetLastName(patch.lastName);
        user.SetRoles(patch.roles);
        assert user.Record() == patched;
        user := Save(user);
      }
      forall k | k in store && k != id
        ensures store[k] != user
      {
        assert old(store[k].id) == Some(k);
      }
    }

    /** The email query over the scan order finds nothing exactly when no stored user has that email, and otherwise a stored user. */
    lemma FirstByEmailScansStore(email: string)
      requires Valid()
      ensures FirstByEmail(order, store, email) == null <==> forall k :: k in store ==> store[k].email != email
      ensures FirstByEmail(order, store, email) in store.Values + {null}
    {
      var r := FirstByEmail(order, store, email);
      if r == null {
        forall k | k in store ensures store[k].email != email {
          var i :| 0 <= i < |order| && order[i] == k;
        }
      } else {
        var i :| 0 <= i < |order| && store[order[i]] == r;
        var k := order[i];
        assert k in store && store[k] == r && r.email == email;
      }
    }

    /** The user with the given email (the first in scan order), or null. */
    method FindUserByEmail(username: string) returns (user: User?)
      requires Valid()
      ensures user == null <==> forall k :: k in store ==> store[k].email != username
      ensures user != null ==> user in store.Values && user.email == username
      ensures user == FirstByEmail(order, store, username)
    {
      user := FirstByEmail(order, store, username);
      FirstByEmailScansStore(username);
    }

    /** The user with the given email, or the not-found error naming it. */
    method LoadUserByUsername(username: string) returns (result: LoadResult)
      requires Valid()
      ensures result.UsernameNotFound? <==> forall k :: k in store ==> store[k].email != username
      ensures result.UsernameNotFound? ==> result.message == NotFoundMessage(username)
      ensures result.Found? ==>
                result.user in store.Values && result.user.Username() == username &&
                result.user == FirstByEmail(order, store, username)
    {
      var user := FirstByEmail(order, store, username);
      FirstByEmailScansStore(username);
      if user == null {
        return UsernameNotFound(NotFoundMessage(username));
      }
      result := Found(user);
    }
  }
}
