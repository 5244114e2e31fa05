/**
 * The customization hooks of the downloader (src/custom/function.py):
 * request pacing (`wait`), the failure policy (`failure_handling`), the item
 * filter (`condition_filter`), the batch cool-down (`suspend`) and the API
 * token gate (`is_valid_token`).
 *
 * Every hook is a pure decision here. The sleeping, printing and environment
 * lookups of the Python hooks become inputs and outputs: the random draw of
 * `wait` is a parameter, `suspend` returns the pause it would announce and
 * sleep, and the two environment variables are parameters of the gate.
 */
module CustomHooks {
  import opened Wrappers

  // ---------------------------------------------------------------------------
  // Request pacing: `wait`
  // ---------------------------------------------------------------------------

  /** Bounds of `randint(5, 20)`, both inclusive, in tenths of a second. */
  const MinDelayTenths: nat := 5
  const MaxDelayTenths: nat := 20

  /**
   * The delay `wait` sleeps before a data request, in tenths of a second,
   * given the integer `draw` that `randint(5, 20)` returned.
   */
  function WaitTenths(draw: int): (tenths: nat)
    requires MinDelayTenths <= draw <= MaxDelayTenths
    ensures 5 <= tenths <= 20
  {
    draw
  }

  /** The same delay in seconds (`randint(5, 20) * 0.1`), as an exact real. */
  function WaitSeconds(draw: int): (seconds: real)
    requires MinDelayTenths <= draw <= MaxDelayTenths
    ensures 0.5 <= seconds <= 2.0
    ensures seconds * 10.0 == draw as real
  {
    WaitTenths(draw) as real / 10.0
  }

  /**
   * Documentation of the uniformity argument rather than substantial proof:
   * the delay in tenths is the draw itself, so different draws give different
   * delays and every delay in the window is reached by a draw, and a uniform
   * draw yields a uniform delay over [0.5 s, 2.0 s].
   */
  lemma WaitDelayIsOneToOne(d1: int, d2: int)
    requires MinDelayTenths <= d1 <= MaxDelayTenths
    requires MinDelayTenths <= d2 <= MaxDelayTenths
    ensures WaitTenths(d1) == WaitTenths(d2) <==> d1 == d2
  {
  }

  lemma WaitDelayCoversWindow(tenths: int)
    requires 5 <= tenths <= 20
    ensures exists draw :: MinDelayTenths <= draw <= MaxDelayTenths && WaitTenths(draw) == tenths
  {
    assert WaitTenths(tenths) == tenths;
  }

  // ---------------------------------------------------------------------------
  // Failure policy and item filter
  // ---------------------------------------------------------------------------

  /** `failure_handling`: batch processing always continues after a failed account or collection. */
  function FailureHandling(): (continueBatch: bool)
    ensures continueBatch
  {
    true
  }

  /** `condition_filter`: every fetched record is kept, whatever its fields. */
  function ConditionFilter<Record>(data: Record): (keep: bool)
    ensures keep
  {
    true
  }

  // ---------------------------------------------------------------------------
  // Batch cool-down: `suspend`
  // ---------------------------------------------------------------------------

  /** `batches`: the number of processed accounts or collections between pauses. */
  const Batches: nat := 10
  /** `rest_time`: the length of a pause, in seconds (five minutes). */
  const RestTime: nat := 60 * 5

  /** What `suspend` announces (both values go into the notice) and then sleeps. */
  datatype Pause = Pause(batches: nat, restSeconds: nat)

  /**
   * The decision `suspend(count, console)` takes, as written: it pauses when
   * `not count % batches`, i.e. whenever `count` is a multiple of ten, zero
   * included. Python's `%` by a positive divisor is never negative, as
   * Dafny's is, so the test is the same for every integer `count`.
   */
  function Suspend(count: int): (pause: Option<Pause>)
    ensures pause.Some? <==> exists k :: count == 10 * k
    ensures pause.Some? ==> pause.value == Pause(10, 300)
  {
    if count % Batches == 0 then
      assert count == 10 * (count / 10);
      Some(Pause(Batches, RestTime))
    else
      None
  }

  /** The code pauses at count zero, before any unit has been processed. */
  lemma SuspendFiresAtZero()
    ensures Suspend(0) == Some(Pause(10, 300))
  {
  }

  /**
   * A variant that never pauses at count zero, the behaviour a reader of the
   * hook's documentation would expect. It is not what the hook does.
   */
  predicate GuardedCoolDown(count: int)
  {
    count > 0 && count % Batches == 0
  }

  /** For the non-negative counts the batch loop passes, the two differ only at zero. */
  lemma GuardedCoolDownDiffersOnlyAtZero(count: int)
    requires count >= 0
    ensures Suspend(count).Some? != GuardedCoolDown(count) <==> count == 0
  {
  }

  /** After a pause at `count`, the next pause comes exactly ten units later. */
  lemma SuspendSpacing(count: int)
    requires Suspend(count).Some?
    ensures Suspend(count + 10).Some?
    ensures forall k :: count < k < count + 10 ==> Suspend(k).None?
  {
  }

  /** The number of pauses the hook takes while counts 1 to n pass through it. */
  function PausesThrough(n: nat): nat
  {
    if n == 0 then 0 else PausesThrough(n - 1) + (if Suspend(n).Some? then 1 else 0)
  }

  /**
   * Over a run of n completed units, numbered from 1, the hook pauses once per
   * full batch: no pause for counts 1 to 9, one at 10, another at 20.
   */
  lemma {:induction false} PausesThroughIsFullBatches(n: nat)
    ensures PausesThrough(n) == n / Batches
  {
    if n > 0 {
      PausesThroughIsFullBatches(n - 1);
      if n % 10 == 0 {
        assert n / 10 == (n - 1) / 10 + 1;
      } else {
        assert n / 10 == (n - 1) / 10;
      }
    }
  }

  // ---------------------------------------------------------------------------
  // Token gate: `is_valid_token`
  // ---------------------------------------------------------------------------

  /** `VALID_TOKENS`, the compiled-in allow-list. */
  const ValidTokens: seq<string> := ["your-secret-token-1", "your-secret-token-2", "test-token-12345"]

  /** Python truthiness of an optional string: present and non-empty. */
  predicate Truthy(s: Option<string>)
  {
    s.Some? && s.value != ""
  }

  /**
   * Reference for probing environment variables in order: the first value
   * that is set and non-empty, or None when there is none.
   */
  function FirstNonEmpty(values: seq<Option<string>>): (secret: Option<string>)
    ensures secret.None? <==> forall i :: 0 <= i < |values| ==> !Truthy(values[i])
    ensures secret.Some? ==> secret.value != ""
    ensures secret.Some? ==>
      exists i :: 0 <= i < |values| && values[i] == secret && forall j :: 0 <= j < i ==> !Truthy(values[j])
  {
    if |values| == 0 then None
    else if Truthy(values[0]) then values[0]
    else
      var rest := FirstNonEmpty(values[1..]);
      assert forall i :: 1 <= i < |values| ==> values[i] == values[1..][i - 1];
      rest
  }

  /**
   * `getenv("API_TOKEN") or getenv("DOUK_API_TOKEN")`: the first operand when
   * it is truthy, otherwise the second, which may itself be unset or empty.
   * Its truthiness and, when truthy, its value are those of probing the two
   * variables in that order.
   */
  function EnvToken(apiToken: Option<string>, doukApiToken: Option<string>): (env: Option<string>)
    ensures Truthy(env) <==> FirstNonEmpty([apiToken, doukApiToken]).Some?
    ensures Truthy(env) ==> env == FirstNonEmpty([apiToken, doukApiToken])
  {
    if Truthy(apiToken) then apiToken else doukApiToken
  }

  /**
   * `is_valid_token(token)`, with the two environment variables and the
   * allow-list as parameters. `token` is None or a string, as the callers
   * pass it. A missing or empty token passes only when no secret is
   * configured; a non-empty one passes only by matching a configured secret.
   */
  function IsValidToken(token: Option<string>, apiToken: Option<string>, doukApiToken: Option<string>,
                         validTokens: seq<string>): (valid: bool)
    ensures !Truthy(token) ==>
      (valid <==> !Truthy(apiToken) && !Truthy(doukApiToken) && validTokens == [])
    ensures Truthy(token) ==>
      (valid <==> FirstNonEmpty([apiToken, doukApiToken]) == token || token.value in validTokens)
  {
    if !Truthy(token) then
      var env := EnvToken(apiToken, doukApiToken);
      !Truthy(env) && |validTokens| == 0
    else
      var env := EnvToken(apiToken, doukApiToken);
      if Truthy(env) && token == env then true
      else if token.value in validTokens then true
      else false
  }

  /**
   * The gate as deployed, with the compiled-in allow-list. As that list is
   * not empty, a missing or empty token never passes.
   */
  function IsValidTokenDeployed(token: Option<string>, apiToken: Option<string>, doukApiToken: Option<string>):
    (valid: bool)
    ensures valid <==>
      (Truthy(token) && (FirstNonEmpty([apiToken, doukApiToken]) == token || token.value in ValidTokens))
  {
    IsValidToken(token, apiToken, doukApiToken, ValidTokens)
  }

  /** A missing or empty token is accepted exactly when no secret is configured anywhere. */
  lemma EmptyTokenAcceptedIffUnconfigured(token: Option<string>, apiToken: Option<string>,
                                          doukApiToken: Option<string>, validTokens: seq<string>)
    requires !Truthy(token)
    ensures IsValidToken(token, apiToken, doukApiToken, validTokens) <==>
      !Truthy(apiToken) && !Truthy(doukApiToken) && validTokens == []
  {
  }

  /** A non-empty token equal to the configured environment secret is accepted, whatever the allow-list. */
  lemma EnvSecretAccepted(secret: string, apiToken: Option<string>, doukApiToken: Option<string>,
                          validTokens: seq<string>)
    requires FirstNonEmpty([apiToken, doukApiToken]) == Some(secret)
    ensures IsValidToken(Some(secret), apiToken, doukApiToken, validTokens)
  {
  }

  /** A non-empty token on the allow-list is accepted, whatever the environment holds. */
  lemma AllowListedAccepted(token: string, apiToken: Option<string>, doukApiToken: Option<string>,
                            validTokens: seq<string>)
    requires token != "" && token in validTokens
    ensures IsValidToken(Some(token), apiToken, doukApiToken, validTokens)
  {
  }

  /**
   * A non-empty token is accepted only by matching a configured secret: the
   * environment secret or an allow-list entry.
   */
  lemma NonEmptyTokenAcceptedIffMatches(token: string, apiToken: Option<string>, doukApiToken: Option<string>,
                                        validTokens: seq<string>)
    requires token != ""
    ensures IsValidToken(Some(token), apiToken, doukApiToken, validTokens) <==>
      FirstNonEmpty([apiToken, doukApiToken]) == Some(token) || token in validTokens
  {
  }

  /** With nothing configured, every non-empty token is rejected (while the empty one passes). */
  lemma UnconfiguredRejectsEveryToken(token: string, apiToken: Option<string>, doukApiToken: Option<string>)
    requires token != ""
    requires !Truthy(apiToken) && !Truthy(doukApiToken)
    ensures !IsValidToken(Some(token), apiToken, doukApiToken, [])
    ensures IsValidToken(None, apiToken, doukApiToken, []) && IsValidToken(Some(""), apiToken, doukApiToken, [])
  {
  }

  /** `API_TOKEN` takes precedence over `DOUK_API_TOKEN`; an empty `API_TOKEN` counts as unset. */
  lemma ApiTokenTakesPrecedence(apiToken: Option<string>, doukApiToken: Option<string>)
    ensures Truthy(apiToken) ==> FirstNonEmpty([apiToken, doukApiToken]) == apiToken
    ensures !Truthy(apiToken) ==> FirstNonEmpty([apiToken, doukApiToken]) == FirstNonEmpty([doukApiToken])
  {
  }

  /**
   * The deployed gate on the tokens of the test script: the three listed
   * tokens pass whatever the environment holds, a missing or empty token is
   * refused (the list is not empty), and "invalid-token" passes only if it is
   * the environment secret.
   */
  lemma DeployedGateOutcomes(apiToken: Option<string>, doukApiToken: Option<string>)
    ensures IsValidTokenDeployed(Some("your-secret-token-1"), apiToken, doukApiToken)
    ensures IsValidTokenDeployed(Some("your-secret-token-2"), apiToken, doukApiToken)
    ensures IsValidTokenDeployed(Some("test-token-12345"), apiToken, doukApiToken)
    ensures !IsValidTokenDeployed(None, apiToken, doukApiToken)
    ensures !IsValidTokenDeployed(Some(""), apiToken, doukApiToken)
    ensures IsValidTokenDeployed(Some("invalid-token"), apiToken, doukApiToken) <==>
      EnvToken(apiToken, doukApiToken) == Some("invalid-token")
  {
  }
}
