# User accounts and the user service

A model of the user-account core of a small role-based admin backend:

- the `User` entity (`UserModel`, `user.dfy`). It is an account with an email as
  login name, a password, an age, optional first and last names and an
  insertion-ordered, duplicate-free collection of roles. It is also the security
  principal: its username is its email, its authorities are the role names
  prefixed with `ROLE_`, and its four account-status flags are always true.
  Equality between two users compares the field values, not the ids.
- `UserServiceImpl` (`UserService`, `user_service.dfy`). It is a
  create/list/find/delete/update facade over a user repository, plus the
  username lookup used by authentication. `update` overwrites the stored user
  with a patch and encodes a supplied password.
- the hash code of a `User` (`UserHash`, `user_hash.dfy`), in Java's 32-bit
  wrapping `int` arithmetic.

The `User` is a class whose setters change one field and state the new state
through `Record()`, a value snapshot of the object. The repository is modelled
inside the service as three fields:

- a map from id to stored `User` object;
- the order in which a full scan returns the ids;
- the next id the identity column will hand out.

The service constructor takes the repository as it stands (any contents that satisfy the
repository invariant) and the password encoder, an uninterpreted function.

One might expect an empty patch password to keep the old one, but
`UserServiceImpl.java:111` tests only for null, so the model encodes and stores
`""`; `EmptyPasswordIsEncoded` states this.
A negative `count` in `list` gives an empty list, as the loop in the code does.

## Model

| member | source | states |
|---|---|---|
| UserModel.MapRolesToAuthorities | src/main/java/ru/kata/spring/boot_security/demo/model/User.java:144-147 | one authority per role, in role order, each `ROLE_` followed by that role's name |
| UserModel.MapRolesToNames | src/main/java/ru/kata/spring/boot_security/demo/model/User.java:149-151 | one name per role, in role order, each that role's name |
| UserModel.StringEquals | src/main/java/ru/kata/spring/boot_security/demo/model/User.java:192-203 | null-safe string equality: true when both are null, false when exactly one is, and otherwise true iff the contents are equal |
| UserModel.User.constructor | src/main/java/ru/kata/spring/boot_security/demo/model/User.java:60-66 | the new user holds the given email, password, age and names, has no id and no roles |
| UserModel.User.WithAge | src/main/java/ru/kata/spring/boot_security/demo/model/User.java:52-54 | as the full constructor, with both names null |
| UserModel.User.WithCredentials | src/main/java/ru/kata/spring/boot_security/demo/model/User.java:56-58 | as the full constructor, with age 0 and both names null |
| UserModel.User.SetRoles | src/main/java/ru/kata/spring/boot_security/demo/model/User.java:68-70 | replaces the roles and nothing else; a duplicate-free collection keeps the user valid |
| UserModel.User.SetEmail | src/main/java/ru/kata/spring/boot_security/demo/model/User.java:72-74 | replaces the email and nothing else |
| UserModel.User.SetAge | src/main/java/ru/kata/spring/boot_security/demo/model/User.java:76-78 | replaces the age and nothing else |
| UserModel.User.SetPassword | src/main/java/ru/kata/spring/boot_security/demo/model/User.java:80-82 | replaces the password, possibly with null, and nothing else |
| UserModel.User.SetFirstName | src/main/java/ru/kata/spring/boot_security/demo/model/User.java:96-98 | replaces the first name and nothing else |
| UserModel.User.SetLastName | src/main/java/ru/kata/spring/boot_security/demo/model/User.java:104-106 | replaces the last name and nothing else |
| UserModel.User.Username | src/main/java/ru/kata/spring/boot_security/demo/model/User.java:109-112 | the login name is the email |
| UserModel.User.IsAccountNonExpired | src/main/java/ru/kata/spring/boot_security/demo/model/User.java:114-117 | the account is never expired |
| UserModel.User.IsAccountNonLocked | src/main/java/ru/kata/spring/boot_security/demo/model/User.java:119-122 | the account is never locked |
| UserModel.User.IsCredentialsNonExpired | src/main/java/ru/kata/spring/boot_security/demo/model/User.java:124-127 | the credentials never expire |
| UserModel.User.IsEnabled | src/main/java/ru/kata/spring/boot_security/demo/model/User.java:129-132 | the account is never disabled |
| UserModel.User.Authorities | src/main/java/ru/kata/spring/boot_security/demo/model/User.java:138-142 | the granted authorities: one per role, in role order, each `ROLE_` followed by that role's name |
| UserModel.User.RoleNames | src/main/java/ru/kata/spring/boot_security/demo/model/User.java:149-151 | one name per role, in role order, each that role's name |
| UserModel.User.Equals | src/main/java/ru/kata/spring/boot_security/demo/model/User.java:173-190 | false for null, true for the same object even with a null password, and otherwise true iff email, password, age and both names are equal and the role sets are equal; the id is not compared |
| UserModel.MutualContainment | src/main/java/ru/kata/spring/boot_security/demo/model/User.java:187-188 | each role collection containing the other is exactly the two holding the same set of roles |
| UserModel.AuthoritiesStripToNames | src/main/java/ru/kata/spring/boot_security/demo/model/User.java:139-151 | every authority starts with `ROLE_`, and removing that prefix gives the role name at the same position |
| UserModel.AuthoritiesDistinct | src/main/java/ru/kata/spring/boot_security/demo/model/User.java:139-147 | a duplicate-free role collection grants duplicate-free authorities |
| UserModel.AuthoritiesAsSet | src/main/java/ru/kata/spring/boot_security/demo/model/User.java:139-147 | the set of authorities is exactly the prefixed names of the set of roles |
| UserModel.AdminUserExample | src/main/java/ru/kata/spring/boot_security/demo/model/User.java:139-151 | roles ADMIN and USER grant `ROLE_ADMIN` and `ROLE_USER` and are named ADMIN and USER |
| UserModel.SameAccount | src/main/java/ru/kata/spring/boot_security/demo/model/User.java:181-189 | the comparison of two distinct users holds iff email, password, age and both names are equal and the role sets are equal; the id is not compared |
| UserModel.SameAccountEquivalence | src/main/java/ru/kata/spring/boot_security/demo/model/User.java:181-189 | the equality is reflexive, symmetric and transitive |
| UserModel.SameAccountIgnoresIdAndRoleOrder | src/main/java/ru/kata/spring/boot_security/demo/model/User.java:181-189 | a user stays equal after changing its id or reordering its roles |
| UserModel.SameAccountSameAuthorities | src/main/java/ru/kata/spring/boot_security/demo/model/User.java:139-147 | equal users grant the same set of authorities |
| UserModel.EqualsSymmetric | src/main/java/ru/kata/spring/boot_security/demo/model/User.java:174-190 | `equals` is symmetric on every pair of users where it returns in both directions: a null password matters only when the emails are equal |
| UserService.FirstByEmail | src/main/java/ru/kata/spring/boot_security/demo/service/UserServiceImpl.java:128 | the repository's email query: null iff no user under the given ids has that email, and otherwise a user under one of those ids with that email |
| UserService.NotFoundMessage | src/main/java/ru/kata/spring/boot_security/demo/service/UserServiceImpl.java:138 | the not-found message is 32 characters longer than the username and carries it verbatim from position 20, so different usernames give different messages |
| UserService.Patched | src/main/java/ru/kata/spring/boot_security/demo/service/UserServiceImpl.java:109-117 | an update keeps the id and takes every other field from the patch; a supplied password is stored encoded, and a null one keeps the old password |
| UserService.PatchIsReplacement | src/main/java/ru/kata/spring/boot_security/demo/service/UserServiceImpl.java:109-117 | an update replaces rather than merges: the old state matters only through its id and, without a new password, its password |
| UserService.EmptyPasswordIsEncoded | src/main/java/ru/kata/spring/boot_security/demo/service/UserServiceImpl.java:111-113 | an empty patch password is encoded and stored; only null keeps the old password |
| UserService.PatchOverwritesPatch | src/main/java/ru/kata/spring/boot_security/demo/service/UserServiceImpl.java:109-117 | a second update that supplies a password overrides the first update entirely |
| UserService.UserServiceImpl.constructor | src/main/java/ru/kata/spring/boot_security/demo/service/UserServiceImpl.java:28-36 | the service wraps the injected repository as it stands (any valid contents, scan order and next id) and the injected encoder |
| UserService.UserServiceImpl.Save | src/main/java/ru/kata/spring/boot_security/demo/service/UserServiceImpl.java:41 | a new user gets the next id, is stored under it and is appended to the scan order; an already stored user stays as it is; validity is kept |
| UserService.UserServiceImpl.Create | src/main/java/ru/kata/spring/boot_security/demo/service/UserServiceImpl.java:38-42 | the new user is stored as given, with no encoding, under a fresh id at the end of the scan order; other stored users are unchanged |
| UserService.UserServiceImpl.List | src/main/java/ru/kata/spring/boot_security/demo/service/UserServiceImpl.java:45-56 | returns the first `count` users of a full scan, in scan order: none when `count <= 0`, and all of them when fewer are stored |
| UserService.UserServiceImpl.ListAll | src/main/java/ru/kata/spring/boot_security/demo/service/UserServiceImpl.java:59-69 | returns every stored user in scan order, each exactly once |
| UserService.UserServiceImpl.Find | src/main/java/ru/kata/spring/boot_security/demo/service/UserServiceImpl.java:72-80 | returns the user stored under the id, or null iff there is none |
| UserService.UserServiceImpl.Delete | src/main/java/ru/kata/spring/boot_security/demo/service/UserServiceImpl.java:82-86 | removes the entry under the user's id from the repository and the scan order; a user without an id, or not stored, changes nothing |
| UserService.UserServiceImpl.DeleteById | src/main/java/ru/kata/spring/boot_security/demo/service/UserServiceImpl.java:88-97 | removes the user stored under the id; an absent id changes nothing |
| UserService.UserServiceImpl.Update | src/main/java/ru/kata/spring/boot_security/demo/service/UserServiceImpl.java:99-123 | null iff the id is absent; with a null patch the stored user is returned unchanged; otherwise the stored user becomes the patched state (patch fields, encoded password if supplied, same id); no other user and no key changes |
| UserService.UserServiceImpl.FirstByEmailScansStore | src/main/java/ru/kata/spring/boot_security/demo/service/UserServiceImpl.java:125-142 | the email query over the scan order finds nothing iff no stored user has the email, and otherwise finds a stored user |
| UserService.UserServiceImpl.FindUserByEmail | src/main/java/ru/kata/spring/boot_security/demo/service/UserServiceImpl.java:125-131 | null iff no stored user has the email; otherwise a stored user with that email |
| UserService.UserServiceImpl.LoadUserByUsername | src/main/java/ru/kata/spring/boot_security/demo/service/UserServiceImpl.java:133-142 | the not-found error iff no stored user has the username as email, with the message ``User with username='<username>' not found.``; otherwise a stored user whose username is the one asked for |
| UserHash.SmallIdHashes | src/main/java/ru/kata/spring/boot_security/demo/model/User.java:170 | the ids 1 and 2 hash to 1 and 2 (a long's low half xored with its high half) |
| UserHash.HashCodeAsWritten | src/main/java/ru/kata/spring/boot_security/demo/model/User.java:167-171 | `hashCode` as written, over the id and the compared fields, is a 32-bit value |
| UserHash.HashCode | src/main/java/ru/kata/spring/boot_security/demo/model/User.java:167-190 | the hash over exactly the compared fields is a 32-bit value |
| UserHash.HashFoldInjective | src/main/java/ru/kata/spring/boot_security/demo/model/User.java:170 | different accumulators give different `Objects.hash` results over the same remaining elements, because 31 is invertible modulo 2^32 |
| UserHash.RolesHashBySet | src/main/java/ru/kata/spring/boot_security/demo/model/User.java:170 | the hash code of a duplicate-free role collection depends only on its set of roles, not on their order |
| UserHash.HashCodeAsWrittenBreaksEquals | src/main/java/ru/kata/spring/boot_security/demo/model/User.java:167-171 | two users that differ only in ids 1 and 2 are equal, yet `hashCode` as written gives them different hash codes |
| UserHash.HashCodeRespectsEquals | src/main/java/ru/kata/spring/boot_security/demo/model/User.java:167-190 | a hash code over exactly the compared fields gives equal users equal hash codes |

## Left out

- Logging: every `log.debug` and `log.warn` call is output only and has no effect on state.
- The JPA and validation annotations are left out. That covers the `@Version` counter, the declarative non-empty checks on email and password, the eager fetch and the cascades.
- The no-argument `User()` constructor is left out. It exists for the persistence layer and leaves the email null, while the model keeps the email non-null.
- The getters are plain field reads of `Record()` and have no members of their own.
- `toString` is formatting only.
- The `getClass() != User.class` comparison in `equals` is left out, since the model has no subclasses of `User` and no other kinds of objects.
- UserModel.User.Equals: a receiver with a null password, compared with another user whose email is equal, is excluded by its precondition; Java would throw a NullPointerException at the password comparison there. With different emails the comparison stops at the email and the model returns false, as Java does.
- The constructors take a non-null password. Only `SetPassword` and a patch carry a null one.
- BCrypt: `encode` is an uninterpreted function fixed when the service is built. Its salting and one-way property are not modelled, and `setPasswordEncoder` injection becomes a constructor parameter.
- The repository (`UserRepository`, Spring Data) is not part of this model as code. Its behaviour is modelled inside the service:
  - `save` assigns the next identity id to a new entity;
  - `findAll` returns entries in the injected repository's scan order, with newly saved users appended;
  - `delete(entity)` removes by the entity's id and is silent when the entity is absent;
  - `findUserByEmail` returns the first match in scan order.
- The unique constraint on email is not enforced. The lookup is specified as the first match, so duplicates are allowed.
- UserService.UserServiceImpl.constructor: the injected repository must satisfy the repository invariant (ids match keys, duplicate-free roles, every key scanned once, keys below the next id); a repository in any other state is not modelled.
- UserService.UserServiceImpl.Save: only new users and users already stored under their own id are saved. Merging a detached copy whose id is stored is not modelled.
- UserService.UserServiceImpl.Create: requires a user without an id. Passing an already persisted user to `create` is not modelled.
- UserService.UserServiceImpl.Update: `setRoles` shares the patch's `Set` object in Java. The model copies the role sequence, so later mutation of the patch's set through that alias is not captured.
- Transactions, concurrency, optimistic locking and the rest of the application are left out. That includes the controllers, the security configuration and the `Role` entity beyond its name.
- UserHash.StringHash: a character is hashed as its code unit. Characters outside the Basic Multilingual Plane, which Java stores as two UTF-16 units, are not modelled.
- UserHash.RolesHash: `Role.hashCode` is not part of this model and is taken as a parameter.

## Findings

| source | as written | input that shows it | evidently intended | confidence | as-written member | corrected member |
|---|---|---|---|---|---|---|
| src/main/java/ru/kata/spring/boot_security/demo/model/User.java:167-171 | `hashCode` hashes the id, which `equals` does not compare | two users alike in every field except ids 1 and 2: `equals` holds, and the hash codes differ | equal users have equal hash codes, so the hash covers only the fields `equals` compares | not executed; proved on the model | UserHash.HashCodeAsWrittenBreaksEquals | UserHash.HashCodeRespectsEquals |
