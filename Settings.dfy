/** The default process-wide settings of settings.py, fixed as constants. */
module Settings {

  /** DEBUG defaults to False. */
  const Debug: bool := false

  const AuthHeaderName: string := "AUTHORIZATION"
  const AuthHeaderType: string := "Bearer"
  const Algorithm: string := "HS256"
  const UserFieldClaim: string := "username"

  /** timedelta(days=1), in seconds. */
  const TokenLifetime: int := 86400

  /** gensalt(rounds=12) in User.set_password. */
  const BcryptRounds: nat := 12
}
