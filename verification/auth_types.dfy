/** The records the authentication core passes around: `AuthUser`,
    `RefreshTokenRecord`, the two token payloads, `AuthenticatedUser` and
    `AuthTokensDto`. Timestamps are epoch milliseconds. */
module AuthTypes {
  import opened Roles

  datatype User = User(id: string, email: string, passwordHash: string, roles: seq<Role>)

  datatype RefreshRecord = RefreshRecord(userId: string, tokenId: string, hashedToken: string, expiresAt: int)

  /** `AccessTokenPayload`: `{sub, email, roles}`. */
  datatype AccessClaims = AccessClaims(sub: string, email: string, roles: seq<Role>)

  /** `RefreshTokenPayload`: `{sub, tokenId}`. */
  datatype RefreshClaims = RefreshClaims(sub: string, tokenId: string)

  /** `AuthenticatedUser`, the request principal. */
  datatype Principal = Principal(userId: string, email: string, roles: seq<Role>)

  datatype Tokens = Tokens(accessToken: string, refreshToken: string)
}
