# Customization hooks of TikTokDownloader-API, in Dafny

This project models the hook module `src/custom/function.py` of the
downloader. The batch download loop and the API server call these hooks. They
are:

- `wait`: the randomized pause before each data request;
- `failure_handling`: whether a batch goes on after an account or collection fails;
- `condition_filter`: whether a fetched work is kept;
- `suspend`: the five-minute cool-down after every ten processed accounts or collections;
- `is_valid_token`: the token check of the Web API and Web UI modes.

All five are modelled as pure functions in module `CustomHooks` (`custom_hooks.dfy`).
Module `Wrappers` (`wrappers.dfy`) holds the `Option` type used for Python's `None`.

Inputs the hooks take from their environment become parameters:

- `wait`: the integer returned by `randint(5, 20)` is the parameter `draw`. The delay is counted in tenths of a second.
- `suspend`: returns the pause it would announce and sleep (`Pause(batches, restSeconds)`), or `None`.
- `is_valid_token`:
  - the values of `API_TOKEN` and `DOUK_API_TOKEN` are `Option<string>` parameters, `None` meaning unset;
  - the allow-list is a `seq<string>` parameter;
  - the presented token is `Option<string>`, since callers also pass `None`;
  - `IsValidTokenDeployed` fixes the allow-list to the compiled-in `VALID_TOKENS`.
- Python truthiness of a string that may be `None` is `Truthy`: present and non-empty.

The token gate is asymmetric, exactly as the code is. A missing or empty token
is accepted only when nothing is configured: no environment secret and an
empty allow-list. A non-empty token is accepted only when it matches a
configured secret. So with nothing configured, every non-empty token is
refused.

The cool-down is modelled as written: `not count % 10` is also true for
`count == 0`, so `Suspend(0)` pauses. The hook's docstring
(src/custom/function.py:46-47) describes a pause after every ten processed
items; the code has no guard against count zero, and the model follows the
code. `GuardedCoolDown` is the guarded variant. It is labelled as
such, and a lemma shows that for non-negative counts it differs from the code
only at zero.

## Model

| member | source | states |
|---|---|---|
| `CustomHooks.WaitTenths` | src/custom/function.py:11-16 | for every draw of `randint(5, 20)`, the pause lies between 5 and 20 tenths of a second |
| `CustomHooks.WaitSeconds` | src/custom/function.py:16 | the pause is the draw times 0.1 seconds and lies in [0.5 s, 2.0 s] |
| `CustomHooks.WaitDelayIsOneToOne` | src/custom/function.py:16 | distinct draws give distinct pauses, so a uniform draw gives a uniform pause (documents the uniformity argument; the delay is the draw itself) |
| `CustomHooks.WaitDelayCoversWindow` | src/custom/function.py:16 | every pause from 5 to 20 tenths is produced by some allowed draw (documentation; the draw is its own witness) |
| `CustomHooks.FailureHandling` | src/custom/function.py:23-28 | a failed account or collection never stops the batch |
| `CustomHooks.ConditionFilter` | src/custom/function.py:33-40 | every record is kept, whatever its content |
| `CustomHooks.Suspend` | src/custom/function.py:43-61 | pauses exactly when the count is a multiple of ten; the pause announces batches = 10 and rest_time = 300 seconds |
| `CustomHooks.SuspendFiresAtZero` | src/custom/function.py:52-54 | as written, count 0 triggers the 300-second pause |
| `CustomHooks.GuardedCoolDownDiffersOnlyAtZero` | src/custom/function.py:52-53 | for counts >= 0, the hook and the zero-guarded variant disagree exactly at count 0 |
| `CustomHooks.SuspendSpacing` | src/custom/function.py:52-53 | after a pause, the next pause comes exactly ten counts later and none in between |
| `CustomHooks.PausesThroughIsFullBatches` | src/custom/function.py:52-61 | over counts 1..n the hook pauses n / 10 times: none for 1-9, once at 10, again at 20 |
| `CustomHooks.FirstNonEmpty` | src/custom/function.py:84 | probing variables in order yields the first set, non-empty value, or None exactly when every value is unset or empty |
| `CustomHooks.EnvToken` | src/custom/function.py:91 | `getenv("API_TOKEN") or getenv("DOUK_API_TOKEN")` is truthy iff one of the two is set and non-empty, and then equals the first such one |
| `CustomHooks.ApiTokenTakesPrecedence` | src/custom/function.py:84 | a non-empty `API_TOKEN` wins; an empty or unset one defers to `DOUK_API_TOKEN` |
| `CustomHooks.EmptyTokenAcceptedIffUnconfigured` | src/custom/function.py:82-88 | a None or empty token is accepted iff both variables are unset or empty and the allow-list is empty |
| `CustomHooks.EnvSecretAccepted` | src/custom/function.py:91-93 | a token equal to the environment secret is accepted, whatever the allow-list |
| `CustomHooks.AllowListedAccepted` | src/custom/function.py:96-97 | a non-empty allow-listed token is accepted, whatever the environment |
| `CustomHooks.NonEmptyTokenAcceptedIffMatches` | src/custom/function.py:91-100 | a non-empty token is accepted iff it equals the environment secret or is on the allow-list |
| `CustomHooks.UnconfiguredRejectsEveryToken` | src/custom/function.py:82-100 | with nothing configured, None and "" are accepted and every non-empty token is refused |
| `CustomHooks.IsValidToken` | src/custom/function.py:66-100 | the whole gate on every input: a None or empty token passes iff both variables are unset or empty and the allow-list is empty; a non-empty token passes iff it equals the first non-empty of `API_TOKEN`, `DOUK_API_TOKEN` or is on the allow-list (the lemmas `EmptyTokenAcceptedIffUnconfigured` and `NonEmptyTokenAcceptedIffMatches` restate the two halves) |
| `CustomHooks.IsValidTokenDeployed` | src/custom/function.py:66-110 | with the compiled-in `VALID_TOKENS`, a token passes iff it is non-empty and equals the environment secret or one of the three listed tokens; None and "" never pass |
| `CustomHooks.DeployedGateOutcomes` | test_token.py:31-38 | with the compiled-in list, the three listed tokens pass, None and "" are refused, and "invalid-token" passes only as the environment secret |

## Left out

- Sleeping: `asyncio.sleep`, awaiting and cancellation in `wait` and `suspend`. The model returns the duration instead.
- Randomness: `random.randint`. Its result is an input constrained to 5..20.
- Floating point: the product `randint(5, 20) * 0.1` is computed as an exact real, without IEEE rounding.
- The cool-down notice: `console.print` and the translation call `_` that formats it. The model returns the two values the notice is formatted with.
- `os.getenv`: the two variable values are parameters.
- The commented-out alternatives in the hooks (an interactive failure policy, a fixed one-second delay, a resolution filter) are not active code and are not modelled.
- `main.py`: its only decision is the command-line mode switch (`"api"` selects API mode, anything else interactive mode), which the model does not cover; the application it then runs is not part of this model.
- `test_token.py` prints outcomes and asserts nothing. Its cases appear only as `DeployedGateOutcomes`.
