/**
 * The User entity: an account with credentials, an optional first and last
 * name, an age and an insertion-ordered, duplicate-free collection of roles.
 * It doubles as the security principal (username, password, authorities and
 * four account-status flags).
 */
module UserModel {

  /** A Java reference that may be null. */
  datatype Option<T> = None | Some(value: T)

  /** A role reference; only its name is used by this component. */
  datatype Role = Role(name: string)

  /** Prefix that turns a role name into a granted authority. */
  const AuthorityPrefix: string := "ROLE_"

  predicate Distinct<T(==)>(s: seq<T>)
  {
    forall i, j :: 0 <= i < j < |s| ==> s[i] != s[j]
  }

  /** The roles of a collection, forgetting their order. */
  function RoleSet(roles: seq<Role>): set<Role>
  {
    set r | r in roles
  }

  /** `a.containsAll(b)` on two role collections. */
  predicate ContainsAll(a: seq<Role>, b: seq<Role>)
  {
    forall r :: r in b ==> r in a
  }

  /** One authority per role, in role order, each the prefix followed by the role's name. */
  function MapRolesToAuthorities(roles: seq<Role>): (r: seq<string>)
    ensures |r| == |roles|
    ensures forall i :: 0 <= i < |roles| ==> r[i] == AuthorityPrefix + roles[i].name
  {
    if roles == [] then []
    else [AuthorityPrefix + roles[0].name] + MapRolesToAuthorities(roles[1..])
  }

  /** The plain role names, in role order. */
  function MapRolesToNames(roles: seq<Role>): (r: seq<string>)
    ensures |r| == |roles|
    ensures forall i :: 0 <= i < |roles| ==> r[i] == roles[i].name
  {
    if roles == [] then []
    else [roles[0].name] + MapRolesToNames(roles[1..])
  }

  /** Null-safe string comparison: both absent, or both present and equal. */
  function StringEquals(s1: Option<string>, s2: Option<string>): (r: bool)
    ensures s1.None? && s2.None? ==> r
    ensures s1.None? != s2.None? ==> !r
    ensures s1.Some? && s2.Some? ==> (r <==> s1.value == s2.value)
  {
    match s1
    case None => s2.None?
    case Some(a) => s2.Some? && a == s2.value
  }

  /** The state of a User object, as a value. */
  datatype UserRecord = UserRecord(
    id: Option<int>,
    firstName: Option<string>,
    lastName: Option<string>,
    email: string,
    password: Option<string>,
    age: int,
    roles: seq<Role>)

  /** Each collection containing the other is the same as both holding the same roles. */
  lemma MutualContainment(a: seq<Role>, b: seq<Role>)
    ensures ContainsAll(a, b) && ContainsAll(b, a) <==> RoleSet(a) == RoleSet(b)
  {
    if RoleSet(a) == RoleSet(b) {
      forall r | r in b ensures r in a {
        assert r in RoleSet(b);
      }
      forall r | r in a ensures r in b {
        assert r in RoleSet(a);
      }
    }
  }

  /**
   * The equality law of two distinct User objects: email, password, age and
   * the names match, and each role collection contains the other. It is field
   * equality with the roles compared as sets; the id is not compared.
   */
  predicate SameAccount(a: UserRecord, b: UserRecord)
    ensures SameAccount(a, b) <==>
              && a.email == b.email && a.password == b.password && a.age == b.age
              && a.firstName == b.firstName && a.lastName == b.lastName
              && RoleSet(a.roles) == RoleSet(b.roles)
  {
    MutualContainment(a.roles, b.roles);
    && a.email == b.email
    && a.password == b.password
    && a.age == b.age
    && StringEquals(a.firstName, b.firstName)
    && StringEquals(a.lastName, b.lastName)
    && ContainsAll(a.roles, b.roles)
    && ContainsAll(b.roles, a.roles)
  }

  class User {
    var id: Option<int>
    var firstName: Option<string>
    var lastName: Option<string>
    var email: string
    var password: Option<string>
    var age: int
    var roles: seq<Role>

    /** The role collection is a set: no role occurs twice. */
    ghost predicate Valid()
      reads this
    {
      Distinct(roles)
    }

    function Record(): UserRecord
      reads this
    {
      UserRecord(id, firstName, lastName, email, password, age, roles)
    }

    constructor (email: string, password: string, age: int, firstName: Option<string>, lastName: Option<string>)
      ensures Valid()
      ensures Record() == UserRecord(None, firstName, lastName, email, Some(password), age, [])
    {
      this.id := None;
      this.firstName := firstName;
      this.lastName := lastName;
      this.email := email;
      this.password := Some(password);
      this.age := age;
      this.roles := [];
    }

    constructor WithAge(email: string, password: string, age: int)
      ensures Valid()
      ensures Record() == UserRecord(None, None, None, email, Some(password), age, [])
    {
      this.id := None;
      this.firstName := None;
      this.lastName := None;
      this.email := email;
      this.password := Some(password);
      this.age := age;
      this.roles := [];
    }

    constructor WithCredentials(email: string, password: string)
      ensures Valid()
      ensures Record() == UserRecord(None, None, None, email, Some(password), 0, [])
    {
      this.id := None;
      this.firstName := None;
      this.lastName := None;
      this.email := email;
      this.password := Some(password);
      this.age := 0;
      this.roles := [];
    }

    method SetRoles(roles: seq<Role>)
      requires Distinct(roles)
      modifies this
      ensures Valid()
      ensures Record() == old(Record()).(roles := roles)
    {
      this.roles := roles;
    }

    method SetEmail(username: string)
      modifies this
      ensures Valid() <==> old(Valid())
      ensures Record() == old(Record()).(email := username)
    {
      this.email := username;
    }

    method SetAge(age: int)
      modifies this
      ensures Valid() <==> old(Valid())
      ensures Record() == old(Record()).(age := age)
    {
      this.age := age;
    }

    method SetPassword(password: Option<string>)
      modifies this
      ensures Valid() <==> old(Valid())
      ensures Record() == old(Record()).(password := password)
    {
      this.password := password;
    }

    method SetFirstName(firstName: Option<string>)
      modifies this
      ensures Valid() <==> old(Valid())
      ensures Record() == old(Record()).(firstName := firstName)
    {
      this.firstName := firstName;
    }

    method SetLastName(lastName: Option<string>)
      modifies this
      ensures Valid() <==> old(Valid())
      ensures Record() == old(Record()).(lastName := lastName)
    {
      this.lastName := lastName;
    }

    /** The principal's login name is the email. */
    function Username(): (r: string)
      reads this
      ensures r == email
    {
      email
    }

    /** An account never expires. */
    predicate IsAccountNonExpired()
      ensures IsAccountNonExpired()
    {
      true
    }

    /** An account is never locked. */
    predicate IsAccountNonLocked()
      ensures IsAccountNonLocked()
    {
      true
    }

    /** Credentials never expire. */
    predicate IsCredentialsNonExpired()
      ensures IsCredentialsNonExpired()
    {
      true
    }

    /** An account is never disabled. */
    predicate IsEnabled()
      ensures IsEnabled()
    {
      true
    }

    /** The granted authorities: one per role, in role order, the prefix followed by the role's name. */
    function Authorities(): (r: seq<string>)
      reads this
      ensures |r| == |roles|
      ensures forall i :: 0 <= i < |roles| ==> r[i] == AuthorityPrefix + roles[i].name
    {
      MapRolesToAuthorities(roles)
    }

    /** The role names, in role order. */
    function RoleNames(): (r: seq<string>)
      reads this
      ensures |r| == |roles|
      ensures forall i :: 0 <= i < |roles| ==> r[i] == roles[i].name
    {
      MapRolesToNames(roles)
    }

    /**
     * Equality with another object: never equal to null, always equal to
     * itself, and otherwise the equality law on the two states. Comparing
     * with another object of the same email dereferences this user's password.
     */
    function Equals(o: User?): (r: bool)
      reads this, o
      requires o != null && o != this && email == o.email ==> password.Some?
      ensures o == null ==> !r
      ensures o == this ==> r
      ensures o != null && o != this ==>
                (r <==> && email == o.email && password == o.password && age == o.age
                        && firstName == o.firstName && lastName == o.lastName
                        && RoleSet(roles) == RoleSet(o.roles))
    {
      if o == null then false
      else if this == o then true
      else SameAccount(Record(), o.Record())
    }
  }

  // ---------------------------------------------------------------------
  // Derived views over the roles

  /** Each authority starts with the prefix, and stripping it gives the role name at the same position. */
  lemma {:induction false} AuthoritiesStripToNames(roles: seq<Role>)
    ensures |MapRolesToAuthorities(roles)| == |MapRolesToNames(roles)|
    ensures forall i :: 0 <= i < |roles| ==>
              && MapRolesToAuthorities(roles)[i][..|AuthorityPrefix|] == AuthorityPrefix
              && MapRolesToAuthorities(roles)[i][|AuthorityPrefix|..] == MapRolesToNames(roles)[i]
  {
    var auths, names := MapRolesToAuthorities(roles), MapRolesToNames(roles);
    forall i | 0 <= i < |roles|
      ensures auths[i][..|AuthorityPrefix|] == AuthorityPrefix
      ensures auths[i][|AuthorityPrefix|..] == names[i]
    {
      assert auths[i] == AuthorityPrefix + names[i];
    }
  }

  /** A duplicate-free role collection yields duplicate-free authorities. */
  lemma AuthoritiesDistinct(roles: seq<Role>)
    requires Distinct(roles)
    ensures Distinct(MapRolesToAuthorities(roles))
  {
    var auths := MapRolesToAuthorities(roles);
    AuthoritiesStripToNames(roles);
    forall i, j | 0 <= i < j < |auths|
      ensures auths[i] != auths[j]
    {
      assert roles[i] != roles[j];
      assert auths[i][|AuthorityPrefix|..] != auths[j][|AuthorityPrefix|..];
    }
  }

  /** As a set, the authorities are exactly the prefixed names of the role set. */
  lemma AuthoritiesAsSet(roles: seq<Role>)
    ensures (set a | a in MapRolesToAuthorities(roles)) == (set r | r in RoleSet(roles) :: AuthorityPrefix + r.name)
  {
    var auths := MapRolesToAuthorities(roles);
    forall a | a in auths
      ensures a in (set r | r in RoleSet(roles) :: AuthorityPrefix + r.name)
    {
      var i :| 0 <= i < |auths| && auths[i] == a;
      assert roles[i] in RoleSet(roles);
    }
    forall r | r in RoleSet(roles)
      ensures AuthorityPrefix + r.name in auths
    {
      var i :| 0 <= i < |roles| && roles[i] == r;
      assert auths[i] == AuthorityPrefix + r.name;
    }
  }

  /** The roles ADMIN and USER grant ROLE_ADMIN and ROLE_USER and are named ADMIN and USER. */
  lemma AdminUserExample()
    ensures MapRolesToAuthorities([Role("ADMIN"), Role("USER")]) == ["ROLE_ADMIN", "ROLE_USER"]
    ensures MapRolesToNames([Role("ADMIN"), Role("USER")]) == ["ADMIN", "USER"]
  {
    assert AuthorityPrefix + "ADMIN" == "ROLE_ADMIN";
    assert AuthorityPrefix + "USER" == "ROLE_USER";
  }

  // ---------------------------------------------------------------------
  // The equality law

  /** The equality law is an equivalence relation. */
  lemma SameAccountEquivalence(a: UserRecord, b: UserRecord, c: UserRecord)
    ensures SameAccount(a, a)
    ensures SameAccount(a, b) ==> SameAccount(b, a)
    ensures SameAccount(a, b) && SameAccount(b, c) ==> SameAccount(a, c)
  {
  }

  /** Changing the id, or replacing the roles by any collection with the same roles, keeps a user equal. */
  lemma SameAccountIgnoresIdAndRoleOrder(a: UserRecord, id: Option<int>, roles: seq<Role>)
    requires RoleSet(roles) == RoleSet(a.roles)
    ensures SameAccount(a, a.(id := id, roles := roles))
  {
  }

  /** Users that are equal have the same authorities, up to order. */
  lemma SameAccountSameAuthorities(a: UserRecord, b: UserRecord)
    requires SameAccount(a, b)
    ensures (set x | x in MapRolesToAuthorities(a.roles)) == (set x | x in MapRolesToAuthorities(b.roles))
  {
    AuthoritiesAsSet(a.roles);
    AuthoritiesAsSet(b.roles);
  }

  /** `Equals` is symmetric wherever it is defined both ways. */
  lemma EqualsSymmetric(u: User, o: User)
    requires u != o && u.email == o.email ==> u.password.Some? && o.password.Some?
    ensures u.Equals(o) <==> o.Equals(u)
  {
  }
}
