/**
 * `PasswordHash`: passwords stored as `Base64(salt) ":" Base64(PBKDF2(password, salt))`,
 * and their verification with a comparison loop that always runs to the end.
 *
 * PBKDF2 with HMAC-SHA1 (RFC 8018 section 5.2, 10000 iterations, 256-bit key) and the
 * Base64 codec (RFC 4648 section 4) are supplied by the environment as functions; the
 * random 16-byte salt is a parameter.
 */
module Passwords {
  import opened Wrappers
  import opened Text

  /**
   * A Java `byte[]`, as the 8-bit patterns that `^` and `|` combine in `slowEquals`. These
   * bytes need bit-vector operators, where `DataIO.byte` is read arithmetically; no byte
   * passes between the two, since Base64 and PBKDF2 are the supplied `Crypto` functions.
   */
  type Bytes = seq<bv8>

  const SaltLength: nat := 16
  /** The derived key length: 256 bits. */
  const KeyLength: nat := 32

  /** The foreign primitives the class calls. */
  datatype Crypto = Crypto(
    pbkdf2: (string, Bytes) -> Bytes,
    encode: Bytes -> string,
    /** `Base64.getDecoder().decode`; None when it throws `IllegalArgumentException`. */
    decode: string -> Option<Bytes>)

  /**
   * What the model relies on: the key has the configured length, decoding inverts
   * encoding, and encoded text is drawn from the Base64 alphabet, so it has no ':' and
   * is empty only for empty input.
   */
  ghost predicate Lawful(c: Crypto) {
    (forall p, s :: |c.pbkdf2(p, s)| == KeyLength) &&
    (forall b :: c.decode(c.encode(b)) == Some(b)) &&
    (forall b :: ':' !in c.encode(b)) &&
    (forall b :: |b| > 0 ==> c.encode(b) != "")
  }

  /** `hashPassword` with the salt the random source drew. */
  function HashPassword(c: Crypto, password: string, salt: Bytes): string {
    c.encode(salt) + ":" + c.encode(c.pbkdf2(password, salt))
  }

  /**
   * The outcome `verifyPassword` specifies: the stored hash is the password's hash under
   * the stored salt. An empty salt is refused, as `PBEKeySpec` throws
   * `IllegalArgumentException` on it and the handler answers false.
   */
  function Verifies(c: Crypto, password: string, stored: string): bool {
    var parts := JavaSplit(stored, ':');
    if |parts| != 2 then false
    else match (c.decode(parts[0]), c.decode(parts[1]))
      case (Some(salt), Some(hash)) => |salt| > 0 && hash == c.pbkdf2(password, salt)
      case _ => false
  }

  /** A stored string whose salt decodes to no bytes is refused, whatever its key part. */
  lemma EmptySaltRefused(c: Crypto, password: string, stored: string)
    requires |JavaSplit(stored, ':')| == 2 && c.decode(JavaSplit(stored, ':')[0]) == Some([])
    ensures !Verifies(c, password, stored)
  {
  }

  /** A stored string that does not split into exactly two parts is refused. */
  lemma MalformedRefused(c: Crypto, password: string, stored: string)
    requires |JavaSplit(stored, ':')| != 2
    ensures !Verifies(c, password, stored)
  {
  }

  /** A stored hash has exactly one ':', between the encoded salt and the encoded key. */
  lemma HashFormat(c: Crypto, password: string, salt: Bytes)
    requires Lawful(c) && |salt| == SaltLength
    ensures JavaSplit(HashPassword(c, password, salt), ':') == [c.encode(salt), c.encode(c.pbkdf2(password, salt))]
    ensures multiset(HashPassword(c, password, salt))[':'] == 1
  {
    var a := c.encode(salt);
    var b := c.encode(c.pbkdf2(password, salt));
    assert |c.pbkdf2(password, salt)| == KeyLength;
    assert HashPassword(c, password, salt) == a + [':'] + b;
    JavaSplitTwo(a, ':', b);
    assert multiset(a)[':'] == 0 && multiset(b)[':'] == 0;
  }

  /** A password verifies against its own hash, whatever the salt. */
  lemma HashThenVerify(c: Crypto, password: string, salt: Bytes)
    requires Lawful(c) && |salt| == SaltLength
    ensures Verifies(c, password, HashPassword(c, password, salt))
  {
    HashFormat(c, password, salt);
    assert c.decode(c.encode(salt)) == Some(salt);
    assert c.decode(c.encode(c.pbkdf2(password, salt))) == Some(c.pbkdf2(password, salt));
  }

  /** Another password verifies exactly when it derives the same key under that salt. */
  lemma OtherPasswordVerifies(c: Crypto, password: string, other: string, salt: Bytes)
    requires Lawful(c) && |salt| == SaltLength
    ensures Verifies(c, other, HashPassword(c, password, salt)) <==> c.pbkdf2(other, salt) == c.pbkdf2(password, salt)
  {
    HashFormat(c, password, salt);
    assert c.decode(c.encode(salt)) == Some(salt);
    assert c.decode(c.encode(c.pbkdf2(password, salt))) == Some(c.pbkdf2(password, salt));
  }

  function Min(a: nat, b: nat): nat {
    if a < b then a else b
  }

  /** An or-accumulator is zero exactly when both parts are, and an xor exactly when its operands agree. */
  lemma OrXorZero(d: bv32, x: bv8, y: bv8)
    ensures d | ((x ^ y) as bv32) == 0 <==> d == 0 && x == y
  {
  }

  /**
   * The comparison loop: it starts from the xor of the lengths and ors in the xor of
   * every pair of bytes below the shorter length, never leaving early. `steps` counts
   * the iterations. Of the lengths' xor only whether it is zero reaches the result, so
   * it is kept as 0 or 1.
   */
  method SlowEquals(hash: Bytes, testHash: Bytes) returns (same: bool, steps: nat)
    ensures same <==> hash == testHash
    ensures steps == Min(|hash|, |testHash|)
  {
    var diff: bv32 := if |hash| == |testHash| then 0 else 1;
    var i := 0;
    steps := 0;
    while i < |hash| && i < |testHash|
      invariant 0 <= i <= Min(|hash|, |testHash|) && steps == i
      invariant diff == 0 <==> |hash| == |testHash| && forall k :: 0 <= k < i ==> hash[k] == testHash[k]
    {
      OrXorZero(diff, hash[i], testHash[i]);
      diff := diff | ((hash[i] ^ testHash[i]) as bv32);
      i := i + 1;
      steps := steps + 1;
    }
    same := diff == 0;
  }

  /** `verifyPassword`: split, decode (a decoding failure is caught), derive, compare. */
  method VerifyPassword(c: Crypto, password: string, stored: string) returns (ok: bool)
    ensures ok == Verifies(c, password, stored)
  {
    var parts := JavaSplit(stored, ':');
    if |parts| != 2 {
      return false;
    }
    var salt := c.decode(parts[0]);
    var hash := c.decode(parts[1]);
    if salt.None? || hash.None? || |salt.value| == 0 {
      return false;
    }
    var testHash := c.pbkdf2(password, salt.value);
    var steps;
    ok, steps := SlowEquals(hash.value, testHash);
  }

  /** `check`: another name for `verifyPassword`. */
  method Check(c: Crypto, password: string, stored: string) returns (ok: bool)
    ensures ok == Verifies(c, password, stored)
  {
    ok := VerifyPassword(c, password, stored);
  }
}
