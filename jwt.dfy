/**
 * The claims a session token carries, `{ id, role }`. Signing and verifying
 * are foreign calls: the handlers receive them as function parameters, where
 * `None` stands for the call throwing (a signing error, a bad signature, an
 * expired token).
 */
module Jwt {
  import opened Wrappers
  import opened UserModel

  datatype Claims = Claims(id: Option<UserId>, role: Option<Role>)
}
