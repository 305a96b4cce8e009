/** The password-hashing and token primitives, abstracted.

    A password hash is a symbolic term: it records the cost factor and the salt
    that bcrypt embeds in its output, and the password it was computed from,
    which only Verify looks at. Verify recomputes the hash of a candidate
    password with the stored cost and salt and compares, as bcrypt.compare does.
    The salt is random in the running system, so it is a parameter here. */
module Crypto {

  type Salt = nat

  /** The cost factor the handlers pass to bcrypt.hash. */
  const Rounds: nat := 10

  datatype PasswordHash = Bcrypt(cost: nat, salt: Salt, preimage: string)

  function Hash(password: string, salt: Salt): (h: PasswordHash)
    ensures h.cost == Rounds && h.salt == salt
  {
    Bcrypt(Rounds, salt, password)
  }

  /** bcrypt.compare: the candidate is accepted exactly when it is the
      password the hash was computed from. */
  predicate Verify(password: string, h: PasswordHash)
    ensures Verify(password, h) <==> h.preimage == password
  {
    Bcrypt(h.cost, h.salt, password) == h
  }

  /** A hash accepts the password it was made from, whatever the salt. */
  lemma HashVerifies(password: string, salt: Salt)
    ensures Verify(password, Hash(password, salt))
  {
  }

  /** ... and no other password (the hash is injective in the password). */
  lemma VerifyOnlyOriginal(password: string, other: string, salt: Salt)
    ensures Verify(other, Hash(password, salt)) <==> other == password
  {
  }

  /** The claims a session token carries: { id, username, email }. Signing,
      the secret and the 24-hour expiry are not part of this model. */
  datatype Claims = Claims(id: nat, username: string, email: string)
}
