/**
 * The new-password / confirm-password rule that both the user update and the
 * password reset apply before touching the stored hash.
 */
module PasswordRule {
  import opened Wrappers
  import opened Text
  import opened HttpErrors

  const NOT_TOGETHER := "New password and confirm password must be provided together"
  const NOT_SAME := "New password and confirm password must be the same"

  /**
   * What the pair asks for: `Success(None)` keeps the password, `Success(Some(p))`
   * replaces it with a hash of `p`, a failure is the BadRequest thrown. Both
   * fields are read with JavaScript truthiness, so an empty string counts as absent.
   */
  function PairRule(newPassword: Option<string>, confirmPassword: Option<string>): (r: Outcome<Option<string>>)
    ensures r == Failure(BadRequest(NOT_TOGETHER)) <==> Filled(newPassword) != Filled(confirmPassword)
    ensures r == Failure(BadRequest(NOT_SAME)) <==>
              Filled(newPassword) && Filled(confirmPassword) && newPassword.value != confirmPassword.value
    ensures r == Success(None) <==> !Filled(newPassword) && !Filled(confirmPassword)
    ensures r.Success? && r.value.Some? <==>
              Filled(newPassword) && Filled(confirmPassword) && newPassword.value == confirmPassword.value
    ensures r.Success? && r.value.Some? ==> r.value.value == newPassword.value == confirmPassword.value
  {
    if Filled(newPassword) != Filled(confirmPassword) then Failure(BadRequest(NOT_TOGETHER))
    else if !Filled(newPassword) then Success(None)
    else if newPassword.value != confirmPassword.value then Failure(BadRequest(NOT_SAME))
    else Success(Some(newPassword.value))
  }

  /** The stored hash after the rule: unchanged, or the hash of the agreed password. */
  function HashAfter(current: string, rule: Outcome<Option<string>>, hash: string -> string): (h: string)
    requires rule.Success?
    ensures rule.value.None? ==> h == current
    ensures rule.value.Some? ==> h == hash(rule.value.value)
  {
    match rule.value
    case None => current
    case Some(p) => hash(p)
  }

  /** An empty field counts as absent: an empty new password alone is no change, an empty confirmation alone is an error. */
  lemma EmptyCountsAsAbsent(p: string)
    requires p != ""
    ensures PairRule(Some(""), None) == Success(None)
    ensures PairRule(Some(p), Some("")) == Failure(BadRequest(NOT_TOGETHER))
  {
  }
}
