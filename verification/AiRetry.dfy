/** Failure classification by error class and the bounded retry policy (karsasec/ai/failure_classifier.py, karsasec/ai/retry.py). */
module AiRetry {
  import opened Common
  import opened AiLedger

  datatype Classification = Classification(errorClass: string, retryable: bool, providerFailure: bool, throttled: bool)

  /** `FailureClassifier.classify` called, as the execution loop does, with nothing but the error class of a response. */
  function Classify(hint: Option<string>): Classification {
    if hint == Some("INVALID_RESPONSE") then Classification("INVALID_RESPONSE", false, false, false)
    else if hint == Some("TIMEOUT") then Classification("TIMEOUT", true, true, false)
    else if hint == Some("NETWORK_ERROR") then Classification("NETWORK_ERROR", true, true, false)
    else if hint == Some("PROVIDER_UNAVAILABLE") then Classification("PROVIDER_UNAVAILABLE", true, true, false)
    else if hint == Some("PROVIDER_THROTTLED") || hint == Some("RATE_LIMIT") then
      Classification("PROVIDER_THROTTLED", true, true, true)
    else if hint == Some("AUTHENTICATION_FAILED") || hint == Some("INVALID_REQUEST") then
      Classification(hint.value, false, false, false)
    else Classification("UNKNOWN_PROVIDER_ERROR", false, false, false)
  }

  datatype RetryPolicy = RetryPolicy(maxAttempts: int)

  /** What the constructor of the policy accepts. */
  predicate PolicyOk(p: RetryPolicy) {
    p.maxAttempts >= 1
  }

  datatype RetryDecision = RetryDecision(shouldRetry: bool, attemptNumber: int)

  function Evaluate(p: RetryPolicy, attemptNumber: int, c: Classification): RetryDecision {
    if attemptNumber >= p.maxAttempts then RetryDecision(false, attemptNumber)
    else if !c.retryable || !c.providerFailure then RetryDecision(false, attemptNumber)
    else RetryDecision(true, attemptNumber + 1)
  }
}
