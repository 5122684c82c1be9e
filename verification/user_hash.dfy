/**
 * The hash code of a User, in Java's 32-bit wrapping `int` arithmetic.
 *
 * `Objects.hash(x1, ..., xn)` is `Arrays.hashCode`: start at 1 and, for each
 * element, multiply by 31 and add the element's hash code. The hash code of a
 * user as written includes its id, which the equality law ignores; the hash
 * code over exactly the compared fields agrees with the equality law.
 */
module UserHash {
  import opened UserModel

  /**
   * A Java `int` value is kept as its 32-bit pattern read as an unsigned
   * number, in [0, 2^32); every arithmetic result is reduced modulo 2^32,
   * which is Java's wrap-around.
   */
  function Wrap(x: int): (r: int)
    ensures 0 <= r < 0x1_0000_0000
  {
    x % 0x1_0000_0000
  }

  /** The polynomial hash: from `acc`, for each element `h`, `acc := 31 * acc + h`. */
  function HashFold(acc: int, hs: seq<int>): (r: int)
    ensures hs != [] || 0 <= acc < 0x1_0000_0000 ==> 0 <= r < 0x1_0000_0000
    decreases |hs|
  {
    if hs == [] then acc else HashFold(Wrap(acc * 31 + hs[0]), hs[1..])
  }

  /** `Arrays.hashCode` over the elements' hash codes, which `Objects.hash` returns. */
  function ArraysHash(hs: seq<int>): int
  {
    HashFold(1, hs)
  }

  function CharCodes(s: string): (r: seq<int>)
    ensures |r| == |s|
  {
    if s == [] then [] else [s[0] as int] + CharCodes(s[1..])
  }

  /** `String.hashCode`: the polynomial hash from 0 over the character codes. */
  function StringHash(s: string): int
  {
    HashFold(0, CharCodes(s))
  }

  /** `Objects.hashCode` of a string that may be null. */
  function OptionHash(s: Option<string>): int
  {
    match s
    case None => 0
    case Some(v) => StringHash(v)
  }

  /** `Objects.hashCode` of a `Long` id that may be null: the low and high 32 bits of the 64, xored. */
  function LongHash(id: Option<int>): int
  {
    match id
    case None => 0
    case Some(v) =>
      var bits := v % 0x1_0000_0000_0000_0000;
      Xor(bits % 0x1_0000_0000, bits / 0x1_0000_0000)
  }

  /** Bitwise exclusive or of two non-negative numbers. */
  function Xor(a: nat, b: nat): nat
    decreases a + b
  {
    if a == 0 && b == 0 then 0
    else (if a % 2 == b % 2 then 0 else 1) + 2 * Xor(a / 2, b / 2)
  }

  /** The hash code of a set of roles: the sum of the roles' hash codes. */
  function RolesHash(roles: seq<Role>, roleHash: Role -> int): int
  {
    if roles == [] then 0 else Wrap(roleHash(roles[0]) + RolesHash(roles[1..], roleHash))
  }

  /** The ids 1 and 2 hash to 1 and 2. */
  lemma SmallIdHashes()
    ensures LongHash(Some(1)) == 1 && LongHash(Some(2)) == 2
  {
    assert 1 % 0x1_0000_0000_0000_0000 == 1 && 2 % 0x1_0000_0000_0000_0000 == 2;
    assert 1 % 0x1_0000_0000 == 1 && 1 / 0x1_0000_0000 == 0;
    assert 2 % 0x1_0000_0000 == 2 && 2 / 0x1_0000_0000 == 0;
    assert Xor(0, 0) == 0;
    assert Xor(1, 0) == 1;
    assert Xor(2, 0) == 2;
  }

  /** The hash codes of the fields the equality law compares, in declaration order. */
  function FieldHashes(u: UserRecord, roleHash: Role -> int): seq<int>
  {
    [StringHash(u.email), OptionHash(u.password), Wrap(u.age),
     OptionHash(u.firstName), OptionHash(u.lastName), RolesHash(u.roles, roleHash)]
  }

  /** `hashCode` as written: `Objects.hash(id, email, password, age, firstName, lastName, roles)`. */
  function HashCodeAsWritten(u: UserRecord, roleHash: Role -> int): (r: int)
    ensures 0 <= r < 0x1_0000_0000
  {
    ArraysHash([LongHash(u.id)] + FieldHashes(u, roleHash))
  }

  /** `hashCode` over exactly the fields the equality law compares. */
  function HashCode(u: UserRecord, roleHash: Role -> int): (r: int)
    ensures 0 <= r < 0x1_0000_0000
  {
    ArraysHash(FieldHashes(u, roleHash))
  }

  /** Adding a multiple of 2^32 to a reduced value does not change its reduction. */
  lemma WrapShift(a: int, k: int)
    requires 0 <= a < 0x1_0000_0000
    ensures Wrap(a + 0x1_0000_0000 * k) == a
  {
  }

  /** Multiplying by 31 and then by 0xBDEF_7BDF, its inverse modulo 2^32, gives back the value. */
  lemma TimesThirtyOneUndone(a: int)
    requires 0 <= a < 0x1_0000_0000
    ensures Wrap(0xBDEF_7BDF * Wrap(31 * a)) == a
  {
    var t := 31 * a;
    var q := t / 0x1_0000_0000;
    assert Wrap(t) == t - q * 0x1_0000_0000;
    var k := 23 * a - 0xBDEF_7BDF * q;
    assert 0xBDEF_7BDF * Wrap(t) == a + 0x1_0000_0000 * k;
    WrapShift(a, k);
  }

  /** One hash step loses nothing modulo 2^32, since 31 is odd. */
  lemma HashStepInjective(a1: int, a2: int, h: int)
    requires 0 <= a1 < 0x1_0000_0000 && 0 <= a2 < 0x1_0000_0000 && a1 != a2
    ensures Wrap(a1 * 31 + h) != Wrap(a2 * 31 + h)
  {
    TimesThirtyOneUndone(a1);
    TimesThirtyOneUndone(a2);
    assert Wrap(31 * a1) != Wrap(31 * a2);
    WrapAddDistinct(31 * a1, 31 * a2, h);
  }

  /** Different reductions stay different once the same amount is added to both sides. */
  lemma WrapAddDistinct(x: int, y: int, h: int)
    requires Wrap(x) != Wrap(y)
    ensures Wrap(x + h) != Wrap(y + h)
  {
  }

  /** Wrapping addition may take its terms in any order. */
  lemma AddSwap(a: int, b: int, c: int)
    ensures Wrap(a + Wrap(b + c)) == Wrap(b + Wrap(a + c))
  {
  }

  /** Different starting values give different polynomial hashes of the same elements. */
  lemma {:induction false} HashFoldInjective(a1: int, a2: int, hs: seq<int>)
    requires 0 <= a1 < 0x1_0000_0000 && 0 <= a2 < 0x1_0000_0000 && a1 != a2
    ensures HashFold(a1, hs) != HashFold(a2, hs)
    decreases |hs|
  {
    if hs != [] {
      HashStepInjective(a1, a2, hs[0]);
      HashFoldInjective(Wrap(a1 * 31 + hs[0]), Wrap(a2 * 31 + hs[0]), hs[1..]);
    }
  }

  /** The collection without its element at index j. */
  function RemoveAt(s: seq<Role>, j: nat): (r: seq<Role>)
    requires j < |s|
    ensures |r| == |s| - 1
    ensures forall k :: 0 <= k < |r| ==> r[k] == s[if k < j then k else k + 1]
  {
    s[..j] + s[j + 1..]
  }

  /** Taking out the role at index j takes its hash code out of the sum. */
  lemma {:induction false} RolesHashRemove(roles: seq<Role>, j: nat, roleHash: Role -> int)
    requires j < |roles|
    ensures RolesHash(roles, roleHash) == Wrap(roleHash(roles[j]) + RolesHash(RemoveAt(roles, j), roleHash))
  {
    var rest := RemoveAt(roles, j);
    if j > 0 {
      var tail := roles[1..];
      RolesHashRemove(tail, j - 1, roleHash);
      assert RemoveAt(tail, j - 1) == rest[1..];
      AddSwap(roleHash(roles[0]), roleHash(roles[j]), RolesHash(rest[1..], roleHash));
    } else {
      assert rest == roles[1..];
    }
  }

  /** Taking an element out of a duplicate-free collection leaves it duplicate-free, without that element. */
  lemma RemoveAtDistinct(s: seq<Role>, j: nat)
    requires j < |s| && Distinct(s)
    ensures Distinct(RemoveAt(s, j))
    ensures RoleSet(RemoveAt(s, j)) == RoleSet(s) - {s[j]}
  {
    var rest := RemoveAt(s, j);
    forall a, b | 0 <= a < b < |rest| ensures rest[a] != rest[b] {
      assert rest[a] == s[if a < j then a else a + 1];
      assert rest[b] == s[if b < j then b else b + 1];
    }
    forall r | r in RoleSet(s) - {s[j]} ensures r in RoleSet(rest) {
      var k :| 0 <= k < |s| && s[k] == r;
      assert rest[if k < j then k else k - 1] == r;
    }
    forall r | r in RoleSet(rest) ensures r in RoleSet(s) - {s[j]} {
      var k :| 0 <= k < |rest| && rest[k] == r;
      assert r == s[if k < j then k else k + 1];
    }
  }

  /** Only the empty collection has no roles. */
  lemma RoleSetEmpty(s: seq<Role>)
    ensures RoleSet(s) == {} <==> s == []
  {
    if s != [] {
      assert s[0] in RoleSet(s);
    }
  }

  /** Duplicate-free role collections with the same roles have the same hash code, whatever their order. */
  lemma {:induction false} RolesHashBySet(r1: seq<Role>, r2: seq<Role>, roleHash: Role -> int)
    requires Distinct(r1) && Distinct(r2)
    requires RoleSet(r1) == RoleSet(r2)
    ensures RolesHash(r1, roleHash) == RolesHash(r2, roleHash)
    decreases |r1|
  {
    if r1 == [] {
      RoleSetEmpty(r2);
    } else {
      var x := r1[0];
      assert x in RoleSet(r2);
      var j :| 0 <= j < |r2| && r2[j] == x;
      RolesHashRemove(r2, j, roleHash);
      RemoveAtDistinct(r2, j);
      RemoveAtDistinct(r1, 0);
      assert RemoveAt(r1, 0) == r1[1..];
      RolesHashBySet(r1[1..], RemoveAt(r2, j), roleHash);
    }
  }

  /**
   * As written, hashing the id breaks the rule that equal objects have equal
   * hash codes: two users alike in everything but their ids 1 and 2 are equal
   * and hash differently.
   */
  lemma HashCodeAsWrittenBreaksEquals(u: UserRecord, roleHash: Role -> int)
    ensures SameAccount(u.(id := Some(1)), u.(id := Some(2)))
    ensures HashCodeAsWritten(u.(id := Some(1)), roleHash) != HashCodeAsWritten(u.(id := Some(2)), roleHash)
  {
    var a, b := u.(id := Some(1)), u.(id := Some(2));
    SmallIdHashes();
    assert FieldHashes(a, roleHash) == FieldHashes(b, roleHash);
    var rest := FieldHashes(a, roleHash);
    assert ([LongHash(a.id)] + rest)[1..] == rest;
    assert ([LongHash(b.id)] + rest)[1..] == rest;
    HashFoldInjective(Wrap(1 * 31 + 1), Wrap(1 * 31 + 2), rest);
  }

  /** Hashing exactly the compared fields gives users that are equal the same hash code. */
  lemma HashCodeRespectsEquals(a: UserRecord, b: UserRecord, roleHash: Role -> int)
    requires Distinct(a.roles) && Distinct(b.roles)
    requires SameAccount(a, b)
    ensures HashCode(a, roleHash) == HashCode(b, roleHash)
  {
    RolesHashBySet(a.roles, b.roles, roleHash);
    assert FieldHashes(a, roleHash) == FieldHashes(b, roleHash);
  }
}
