# Session state machine of a React Native login shell

This project models the logic core of a mobile login shell. Three parts are modelled:

- **Session slice.** This is the store's `auth` slice. Its state is `isLoggedIn` plus a nullable `token`, and it starts logged out with no token. Four actions act on it: `loginRequest`, `loginSuccess(token)`, `loginFailure` and `logout`.
- **Login saga.** `simulateLogin` is a mock service. It accepts the single pair `test`/`password` and resolves with the literal token `fake-jwt-token`; every other pair is rejected with `Invalid credentials`. `handleLogin` turns that outcome into one `loginSuccess` or one `loginFailure` put. The saga runs under redux-saga's `takeLatest`, so only the latest request's outcome reaches the store.
- **Login form.** `validateInputs` checks three rules in order and reports the first one broken. `handleLogin` dispatches `loginRequest` only when validation passes.

Modules:

- `Wrappers` (`wrappers.dfy`) holds `Option`, which stands in for the source's `null`.
- `AuthSlice` (`auth_slice.dfy`) has the state `AuthState`, the actions `Action` and the reducer `Reduce` as a function of state and action. The class `Store` holds the two fields, and each of its case-reducer methods assigns them in place. Every method is proved against `Reduce`.
- `AuthSaga` (`auth_saga.dfy`) has the mock decision `SimulateLogin` and the handler's puts `HandleLogin`. It models take-latest as a sequential state machine: `Saga` holds a generation counter `latestGen` and the tracked attempt, and `Step`/`Run` process events.
  - A login request increments the counter and starts an attempt tagged with the new generation.
  - A completion event `Complete(g)` is applied only if `g` is the tracked attempt's generation, which is always `latestGen`. Any other completion is dropped.
  - The class `Coordinator` updates the counter and the attempt in place and drives a `Store`. Its methods are proved against `Step`.
- `JsString` (`js_string.dfy`) models the JavaScript semantics the form depends on. `Trim` follows `String.prototype.trim` and uses the ECMAScript WhiteSpace and LineTerminator sets, written out. `Utf16Length` follows the `length` property, which counts UTF-16 code units.
- `LoginScreen` (`login_screen.dfy`) has the validator `Validate` and the submit handler `HandleLogin`, which dispatches into a `Coordinator`.

Timing, promises and the saga runtime are not modelled. A pending call settles only when a `Complete(g)` event is fed to `Step`, or when `Coordinator.Complete` is called.

Two behaviours of the code are worth noting:

- `logout` resets the state from any state, including when already logged out (src/redux/slices/authSlice.ts:28-31).
- A password shorter than six code units is reported as too short only after both blank checks pass (src/screens/LoginScreen.tsx:29-44).

## Model

| member | source | states |
|---|---|---|
| AuthSlice.Reduce | src/redux/slices/authSlice.ts:17-31 | a login request leaves the state unchanged; every other action yields a state where a token is held iff logged in; every action keeps that invariant; the result is logged in iff the action is a login success or a request made while logged in |
| AuthSlice.InitialIsLoggedOut | src/redux/slices/authSlice.ts:8-11 | the initial state is logged out with no token and satisfies the session invariant |
| AuthSlice.LoginRequestIsNoOp | src/redux/slices/authSlice.ts:17-19 | a login request leaves any state entirely unchanged |
| AuthSlice.LoginSuccessLogsIn | src/redux/slices/authSlice.ts:20-23 | login success from any state is logged in and holds exactly the given token |
| AuthSlice.LoginFailureLogsOut | src/redux/slices/authSlice.ts:24-27 | login failure from any state yields logged out with no token |
| AuthSlice.LogoutProperties | src/redux/slices/authSlice.ts:24-31 | logout yields logged out with no token, equals login failure from every state, and is idempotent |
| AuthSlice.ReduceAllPreservesConsistent | src/redux/slices/authSlice.ts:3-31 | every run of actions from a state where the token is present iff logged in keeps that invariant |
| AuthSlice.ReduceAllWithoutEffectIsIdentity | src/redux/slices/authSlice.ts:17-19 | a run made only of login requests leaves the state unchanged |
| AuthSlice.ReduceAllLastEffectiveWins | src/redux/slices/authSlice.ts:20-31 | after any run, the state is the one the last non-request action sets, independent of the starting state and of everything before it |
| AuthSlice.Store.constructor | src/redux/slices/authSlice.ts:8-15 | a new store holds the initial state |
| AuthSlice.Store.LoginRequest | src/redux/slices/authSlice.ts:17-19 | the request case reducer assigns nothing |
| AuthSlice.Store.LoginSuccess | src/redux/slices/authSlice.ts:20-23 | sets the fields to logged in and the given token, as the reducer does |
| AuthSlice.Store.LoginFailure | src/redux/slices/authSlice.ts:24-27 | sets the fields to logged out and no token, as the reducer does |
| AuthSlice.Store.Logout | src/redux/slices/authSlice.ts:28-31 | sets the fields to logged out and no token, as the reducer does |
| AuthSlice.Store.Apply | src/redux/slices/authSlice.ts:13-33 | dispatching an action to its case reducer changes the state exactly as the reducer does and keeps the session invariant |
| AuthSaga.SimulateLogin | src/redux/saga/authSaga.ts:4-14 | succeeds iff the username is "test" and the password is "password"; a success carries the non-empty token "fake-jwt-token"; a failure carries "Invalid credentials" |
| AuthSaga.HandleLogin | src/redux/saga/authSaga.ts:16-30 | the handler puts exactly one action: a login success with "fake-jwt-token" for the accepted pair, otherwise a login failure and no success |
| AuthSaga.Step | src/redux/saga/authSaga.ts:16-33 | keeps the invariant that the tracked attempt carries the latest generation; a request increments the generation and tracks an attempt with the request's unmodified credentials, leaving the session as it was; any other action only reduces the session; a completion of the tracked attempt stops tracking it and reduces the handler's puts for its credentials into the session; a completion whose generation is not the latest changes nothing |
| AuthSaga.RunPreservesValid | src/redux/saga/authSaga.ts:33 | every run keeps that invariant and never lowers the generation counter |
| AuthSaga.SupersededCompletionIsDiscarded | src/redux/saga/authSaga.ts:33 | once a generation is superseded, removing its completions from any later run, wherever they fall, leaves the final state unchanged |
| AuthSaga.CompletionsOnly | src/redux/saga/authSaga.ts:16-33 | when only completions arrive, in any order or number, the tracked attempt's outcome is applied exactly when its completion is among them, and nothing else changes |
| AuthSaga.TakeLatestAppliesOnlyLatest | src/redux/saga/authSaga.ts:33 | after request A and then request B, A's completion never affects the state, whatever the completion order; the session ends as B's outcome sets it once B completes, and is unchanged before that |
| AuthSaga.ValidCredentialsLogIn | src/redux/saga/authSaga.ts:7-8 | a request with test/password, once completed with no later request, ends logged in with the token "fake-jwt-token" |
| AuthSaga.InvalidCredentialsLogOut | src/redux/saga/authSaga.ts:9-10 | a request with any other pair, once completed with no later request, ends logged out with no token, from any session |
| AuthSaga.LoginThenLogout | src/redux/saga/authSaga.ts:4-33 | from any valid state, a test/password request, completions that include its own, and then a logout end logged out with no token |
| AuthSaga.Coordinator.constructor | src/redux/saga/authSaga.ts:32-34 | a new coordinator starts at generation 0 with no attempt and a fresh store in the initial state |
| AuthSaga.Coordinator.Dispatch | src/redux/saga/authSaga.ts:33 | an action is reduced by the store; a login request also starts a new generation's attempt, as `Step` says |
| AuthSaga.Coordinator.Complete | src/redux/saga/authSaga.ts:16-30 | a completion applies the handler's put to the store only for the tracked attempt, as `Step` says |
| JsString.TrimIsInfix | src/screens/LoginScreen.tsx:29 | trim yields the infix between a whitespace-only prefix and a whitespace-only suffix; a non-empty result starts and ends with a non-whitespace character |
| JsString.TrimEmptyIffAllWhitespace | src/screens/LoginScreen.tsx:29-38 | trim yields the empty string iff every character is whitespace |
| JsString.Utf16LengthBounds | src/screens/LoginScreen.tsx:41 | the length property is at least the number of characters and at most twice that; it equals it when every character is in the Basic Multilingual Plane |
| LoginScreen.Validate | src/screens/LoginScreen.tsx:27-48 | the result is MissingUsername iff the username is all whitespace; MissingPassword iff the username is not but the password is; PasswordTooShort iff neither is blank and the untrimmed password has fewer than 6 code units; Ok iff all three rules pass |
| LoginScreen.RejectionAlerts | src/screens/LoginScreen.tsx:29-44 | a blank username is rejected with the alert "Username is required"; otherwise a blank password with "Password is required"; otherwise a password under six code units with "Password must be at least 6 characters long" |
| LoginScreen.BlankUsernameIsMissing | src/screens/LoginScreen.tsx:29-32 | a username that trims to empty is reported as missing whatever the password |
| LoginScreen.BlankPasswordIsMissing | src/screens/LoginScreen.tsx:35-38 | with a non-blank username, a password that trims to empty is reported as missing |
| LoginScreen.LengthCountsUntrimmed | src/screens/LoginScreen.tsx:41-44 | a non-blank username plus a password of at least six characters, one of them non-whitespace, passes |
| LoginScreen.PaddedShortCorePasses | src/screens/LoginScreen.tsx:41 | "  ab  " trims to two characters, yet passes because the length rule counts the untrimmed six |
| LoginScreen.HandleLogin | src/screens/LoginScreen.tsx:51-57 | dispatches a login request with the unmodified username and password iff validation passes; otherwise the coordinator and store are unchanged, so no authentication is started |

## Left out

- The 1000 ms timer and the promise in `simulateLogin` are not modelled: a call settles only when an explicit `Complete(g)` event arrives.
- The redux-saga runtime, the middleware and the store configuration (src/redux/store.ts) are not modelled. `Coordinator.Dispatch` stands in for one dispatch through the reducer and the saga middleware.
- Concurrency is not modelled. Take-latest is sequential: "cancelling" an earlier handler means its completion is dropped, and the underlying call is never aborted. A completion is applied at most once.
- The reducer's behaviour on action types other than the four is not modelled: `Action` is a closed datatype, so there are no other actions.
- `console.log`, `console.error` and `Alert.alert` are not modelled. Only the verdict is kept, together with the alert text each rejection shows (`AlertMessage`).
- React components, hooks, styles, the button animation, the password visibility toggle and the navigation resets (src/screens/LoginScreen.tsx, src/screens/HomeScreen.tsx, src/navigation/AppNavigator.tsx) are presentation, so they are not modelled. The home screen's logout button is modelled only as the `Logout` action.
- src/App.tsx and src/theme/index.ts are composition and theming with no logic, so they are not modelled.
- Dafny strings hold Unicode scalar values, so a JavaScript string containing a lone surrogate code unit cannot be represented. Every other string is represented, and `Utf16Length` counts its code units the way JavaScript does.
