/**
 * Password hashing of the controller (SimpleController.hash / validatePassword):
 * a salted SHA-256 digest, re-digested once per iteration.
 *
 * SHA-256 and the UTF-8 encoder are not modelled: they are the two functions of
 * a `Primitives` value, about which nothing is assumed except where a lemma says so.
 */
module PasswordHashing {
  import opened Wrappers
  import opened Bytes

  /** The iteration count every new account is hashed with. */
  const BASE_ITERATION_NUMBER := 10000
  /** Length of the random salt every new account gets. */
  const SALT_LENGTH := 32

  datatype Primitives = Primitives(sha256: Bytes -> Bytes, utf8: string -> Bytes)

  /** `f` applied `n` times to `x` (no times when `n` is not positive). */
  function Iterate(f: Bytes -> Bytes, x: Bytes, n: int): Bytes
    decreases n
  {
    if n <= 0 then x else f(Iterate(f, x, n - 1))
  }

  /** The stored digest: D(salt ++ utf8(password)), then `iterationCount` more rounds of D. */
  function Digest(p: Primitives, password: string, iterationCount: int, salt: Bytes): Bytes {
    Iterate(p.sha256, p.sha256(salt + p.utf8(password)), iterationCount)
  }

  /** The `hash` loop: one digest of salt and password, then one re-digest per iteration. */
  method Hash(p: Primitives, password: string, iterationCount: int, salt: Bytes) returns (input: Bytes)
    ensures input == Digest(p, password, iterationCount, salt)
  {
    input := p.sha256(salt + p.utf8(password));
    var i := 0;
    while i < iterationCount
      invariant 0 <= i && (i <= iterationCount || i == 0)
      invariant input == Iterate(p.sha256, p.sha256(salt + p.utf8(password)), i)
    {
      input := p.sha256(input);
      i := i + 1;
    }
  }

  /**
   * `validatePassword`: the account's stored digest equals the digest of the
   * candidate under the account's own salt and iteration count. A missing
   * stored digest matches nothing.
   */
  predicate PasswordMatches(p: Primitives, stored: Option<Bytes>, iterations: int, salt: Bytes, password: string) {
    stored == Some(Digest(p, password, iterations, salt))
  }

  /** Round trip: a digest stored by createHash accepts the same password. */
  lemma StoredDigestAccepts(p: Primitives, password: string, iterations: int, salt: Bytes)
    ensures PasswordMatches(p, Some(Digest(p, password, iterations, salt)), iterations, salt, password)
  {
  }

  /** Iterating a function splits at any point: m rounds, then n more. */
  lemma {:induction false} IterateSplit(f: Bytes -> Bytes, x: Bytes, m: nat, n: nat)
    ensures Iterate(f, x, m + n) == Iterate(f, Iterate(f, x, m), n)
    decreases n
  {
    if n > 0 {
      IterateSplit(f, x, m, n - 1);
    }
  }

  /** Iterating an injective function keeps distinct inputs distinct. */
  lemma {:induction false} IterateInjective(f: Bytes -> Bytes, x: Bytes, y: Bytes, n: int)
    requires forall a, b :: f(a) == f(b) ==> a == b
    requires x != y
    ensures Iterate(f, x, n) != Iterate(f, y, n)
    decreases n
  {
    if n > 0 {
      IterateInjective(f, x, y, n - 1);
    }
  }

  /**
   * With an injective digest and encoder (no collisions), the digest stored for
   * one password rejects every other password.
   */
  lemma OtherPasswordRejected(p: Primitives, stored: string, candidate: string, iterations: int, salt: Bytes)
    requires forall a, b :: p.sha256(a) == p.sha256(b) ==> a == b
    requires forall a, b :: p.utf8(a) == p.utf8(b) ==> a == b
    requires candidate != stored
    ensures !PasswordMatches(p, Some(Digest(p, stored, iterations, salt)), iterations, salt, candidate)
  {
    var u, v := salt + p.utf8(stored), salt + p.utf8(candidate);
    assert u != v by {
      assert u[|salt|..] == p.utf8(stored) && v[|salt|..] == p.utf8(candidate);
    }
    IterateInjective(p.sha256, p.sha256(u), p.sha256(v), iterations);
  }
}
