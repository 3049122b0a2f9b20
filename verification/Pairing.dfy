/** The PIN relay: post until a decisive response or until the attempts run out, with exponential
    backoff in between. What the remote side does is a script of responses, one per attempt. */
module Pairing {
  import opened Clock

  /** A transport error, or a status code with the body's verdict (`{"status": true}`). */
  datatype Response = TransportError | Http(code: int, accepted: bool)

  datatype Cause = MissingAddressOrToken | Unreachable | ServerError | Rejected | Unauthorized

  datatype Outcome =
    | Paired(attempts: nat)
    | NotPairable(cause: Cause, attempts: nat)
    | UnreachableHost(cause: Cause, attempts: nat)
    | RejectedPin(cause: Cause, attempts: nat)

  /** Two to the power of `k`. */
  function Pow2(k: nat): nat {
    if k == 0 then 1 else 2 * Pow2(k - 1)
  }

  /** The responses worth another attempt: no connection, a server error, or a PIN not accepted yet. */
  ghost predicate MayImprove(r: Response) {
    r.TransportError? || r.code >= 500 || (200 <= r.code <= 299 && !r.accepted)
  }

  /** The relay against its script: it stops at the first decisive response if one comes within the
      attempts, and with that response's outcome; otherwise it makes all attempts and reports the cause
      of the last one only. Before attempt `k` it has slept base * (2^(k-1) - 1) in all. */
  method PushPin(hasAddress: bool, hasToken: bool, script: nat -> Response, maxAttempts: int, base: real)
    returns (outcome: Outcome, attempts: nat, slept: real)
    ensures !(hasAddress && hasToken) ==>
      outcome == NotPairable(MissingAddressOrToken, 0) && attempts == 0 && slept == 0.0
    ensures hasAddress && hasToken ==>
      && 1 <= attempts <= Max(1, maxAttempts)
      && slept == base * (Pow2(attempts - 1) - 1) as real
      && outcome.attempts == attempts
      && (forall j: nat :: 1 <= j < attempts ==> MayImprove(script(j)))
      && (MayImprove(script(attempts)) ==> attempts == Max(1, maxAttempts))
      && outcome == match script(attempts)
         case TransportError => UnreachableHost(Unreachable, attempts)
         case Http(code, accepted) =>
           if code == 401 then RejectedPin(Unauthorized, attempts)
           else if code >= 500 then UnreachableHost(ServerError, attempts)
           else if 200 <= code <= 299 && accepted then Paired(attempts)
           else RejectedPin(Rejected, attempts)
  {
    attempts, slept := 0, 0.0;
    if !hasAddress || !hasToken {
      return NotPairable(MissingAddressOrToken, 0), attempts, slept;
    }
    var limit := Max(1, maxAttempts);
    var lastReason := Unreachable;
    var attempt := 1;
    while attempt <= limit
      invariant 1 <= attempt <= limit + 1
      invariant forall j: nat :: 1 <= j < attempt ==> MayImprove(script(j))
      invariant attempt > 1 ==>
        lastReason == match script(attempt - 1)
          case TransportError => Unreachable
          case Http(code, accepted) => if code >= 500 then ServerError else Rejected
      invariant slept == base * (Pow2(if attempt <= limit then attempt - 1 else limit - 1) - 1) as real
    {
      var resp := script(attempt);
      attempts := attempt;
      if resp.TransportError? {
        lastReason := Unreachable;
      } else if resp.code == 401 {
        return RejectedPin(Unauthorized, attempt), attempts, slept;
      } else if 200 <= resp.code < 300 {
        if resp.accepted {
          return Paired(attempt), attempts, slept;
        }
        lastReason := Rejected;
      } else if resp.code >= 500 {
        lastReason := ServerError;
      } else {
        return RejectedPin(Rejected, attempt), attempts, slept;
      }
      if attempt < limit {
        slept := slept + base * Pow2(attempt - 1) as real;
      }
      attempt := attempt + 1;
    }
    attempts := limit;
    if lastReason == Rejected {
      outcome := RejectedPin(Rejected, limit);
    } else {
      outcome := UnreachableHost(lastReason, limit);
    }
  }
}
