/** The failure categories of `server/src/auth/failure.rs`. */
module Failure {

  datatype AuthFailure =
    | MissingToken
    | MissingProof
    | InvalidAlg
    | TokenSignatureInvalid
    | TokenIssuerMismatch
    | TokenAudienceMismatch
    | TokenExpired
    | TokenNotYetValid
    | TokenMissingClaim(claim: string)
    | ProofSignatureInvalid
    | ProofHtmMismatch
    | ProofHtuMismatch
    | ProofIatStale
    | ProofJktMismatch
    | ProofAthMismatch
    | ProofReplayed
    | ProofMissingClaim(claim: string)
    | JwksRefreshFailed
    | MemoryPressure

  /** One of a list of conditions examined in order, and what its violation is reported as. */
  datatype Rule = Rule(holds: bool, failure: AuthFailure)

  predicate AllHold(rules: seq<Rule>) { forall i | 0 <= i < |rules| :: rules[i].holds }

  predicate FirstFails(rules: seq<Rule>, i: int) {
    0 <= i < |rules| && !rules[i].holds && forall j | 0 <= j < i :: rules[j].holds
  }

  predicate Passed(rules: seq<Rule>, n: nat) { n <= |rules| && forall i | 0 <= i < n :: rules[i].holds }

  /** Where examining one more condition leads. */
  lemma Examine(rules: seq<Rule>, n: nat)
    requires Passed(rules, n) && n < |rules|
    ensures rules[n].holds ==> Passed(rules, n + 1)
    ensures rules[n].holds && n + 1 == |rules| ==> AllHold(rules) && forall i :: !FirstFails(rules, i)
    ensures !rules[n].holds ==> !AllHold(rules) && forall i :: FirstFails(rules, i) ==> i == n
  {
  }
}
