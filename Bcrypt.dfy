/** The password-hashing primitive used by the user model, kept abstract: a stored
    password is either text that was never hashed (or any string that is not a valid
    hash) or the digest of a secret under a cost factor and a salt. The salt stands for
    the randomness of gensalt and is passed in. The digest is idealised as collision-free. */
module Bcrypt {
  import opened Wrappers

  datatype Secret = Text(s: string) | Digest(of: Secret, rounds: nat, salt: nat)

  /** checkpw raises ValueError("Invalid salt") on a stored value that is not a hash. */
  datatype CheckError = InvalidSalt

  /** hashpw(password, gensalt(rounds)). */
  function HashPw(password: Secret, rounds: nat, salt: nat): (h: Secret)
    ensures h.Digest? && h.rounds == rounds
  {
    Digest(password, rounds, salt)
  }

  /** checkpw(password, hashed): recomputes the digest with the stored salt and cost. */
  function CheckPw(password: string, hashed: Secret): (r: Result<bool, CheckError>)
    ensures hashed.Text? <==> r.Failure?
    ensures r.Success? ==> (r.value <==> hashed.of == Text(password))
  {
    match hashed
    case Text(_) => Failure(InvalidSalt)
    case Digest(of, _, _) => Success(of == Text(password))
  }

  /** The pair agrees: a password checks against its own hash, whatever the salt and cost. */
  lemma CheckOwnHash(password: string, rounds: nat, salt: nat)
    ensures CheckPw(password, HashPw(Text(password), rounds, salt)) == Success(true)
  {
  }

  /** No other password checks against that hash. */
  lemma CheckOtherFails(password: string, other: string, rounds: nat, salt: nat)
    requires other != password
    ensures CheckPw(other, HashPw(Text(password), rounds, salt)) == Success(false)
  {
  }
}
