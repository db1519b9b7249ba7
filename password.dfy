/** Password hashing (internal/user/encrypt_password.go). `argon2.IDKey` is
    foreign: it is the parameter `kdf`, about which only its documented
    output length is known. `crypto/rand` is the parameter `random`, the
    bytes the source delivered; fewer than requested means it failed. */
module Password {
  import opened Sql

  const SaltSize: nat := 16
  const Argon2Time: nat := 1
  const Argon2Memory: nat := 64 * 1024
  const Argon2Threads: nat := 4
  const Argon2KeyLen: nat := 32

  /** A key-derivation function `(password, salt, time, memory, threads, keyLen)`
      whose output is `keyLen` bytes long, as `argon2.IDKey`'s is. */
  type Kdf = f: (Bytes, Bytes, nat, nat, nat, nat) -> Bytes
    | forall p, s, t, m, l, k :: |f(p, s, t, m, l, k)| == k
    witness (p: Bytes, s: Bytes, t: nat, m: nat, l: nat, k: nat) => seq(k, _ => 0 as byte)

  /** `PasswordArgon2WithSalt`: the fixed parameters (1, 64*1024, 4, 32). */
  function PasswordArgon2WithSalt(kdf: Kdf, password: Bytes, salt: Bytes): (digest: Bytes)
    ensures |digest| == Argon2KeyLen
  {
    kdf(password, salt, Argon2Time, Argon2Memory, Argon2Threads, Argon2KeyLen)
  }

  /** `IsValidPassword`: `reflect.DeepEqual` on two byte slices. */
  function IsValidPassword(kdf: Kdf, password: Bytes, salt: Bytes, encrypted: Bytes): (valid: bool)
    ensures valid ==> |encrypted| == Argon2KeyLen
  {
    PasswordArgon2WithSalt(kdf, password, salt) == encrypted
  }

  /** A stored digest made from the same password and salt verifies; the check
      is element-wise equality with the recomputed digest, so a digest of
      another length never verifies. */
  lemma HashThenVerify(kdf: Kdf, password: Bytes, salt: Bytes, encrypted: Bytes)
    ensures IsValidPassword(kdf, password, salt, PasswordArgon2WithSalt(kdf, password, salt))
    ensures IsValidPassword(kdf, password, salt, encrypted) <==>
      |encrypted| == Argon2KeyLen &&
      forall i | 0 <= i < Argon2KeyLen :: encrypted[i] == PasswordArgon2WithSalt(kdf, password, salt)[i]
  {
  }

  /** The salt `GenerateRandomSalt` returns: what the source delivered, then zeros. */
  function FilledSalt(n: nat, random: Bytes): Bytes {
    seq(n, i requires 0 <= i < n => if i < |random| then random[i] else 0 as byte)
  }

  /** `GenerateRandomSalt`: always `n` bytes; a failing source is only logged,
      and the part of the buffer it did not fill stays zero. */
  method GenerateRandomSalt(n: nat, random: Bytes) returns (salt: Bytes)
    ensures |salt| == n
    ensures forall i | 0 <= i < n && i < |random| :: salt[i] == random[i]
    ensures forall i | |random| <= i < n :: salt[i] == 0
    ensures salt == FilledSalt(n, random)
  {
    var buf := new byte[n](_ => 0);
    var filled := if |random| < n then |random| else n;
    for i := 0 to filled
      invariant forall j | 0 <= j < i :: buf[j] == random[j]
      invariant forall j | i <= j < n :: buf[j] == 0
    {
      buf[i] := random[i];
    }
    salt := buf[..];
  }

  /** `GetPasswordSalt`: a 16-byte salt and the digest of the password with it. */
  method GetPasswordSalt(password: Bytes, random: Bytes, kdf: Kdf) returns (encrypted: Bytes, salt: Bytes)
    ensures |salt| == SaltSize && salt == FilledSalt(SaltSize, random)
    ensures encrypted == PasswordArgon2WithSalt(kdf, password, salt)
    ensures |encrypted| == Argon2KeyLen
    ensures IsValidPassword(kdf, password, salt, encrypted)
  {
    salt := GenerateRandomSalt(SaltSize, random);
    encrypted := PasswordArgon2WithSalt(kdf, password, salt);
  }
}
