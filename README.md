# Session state over browser storage

This project models the client-side session state of a small Vue single-page
application. Two pieces are modelled, and both work on the browser's
`localStorage`:

- **The user store** (`src/stores/user.ts`) holds the signed-in user's
  `email` and `token`. The `isLoggedIn` getter is true when the token is
  non-empty. `login` and `logout` change both fields and mirror them into
  storage under `auth_token` and `user_email`. `loadFromLocalStorage` copies
  the two stored values back into the fields, but only when both are present
  and non-empty.
- **The analytics session identity** (`src/utils/session.ts`).
  `getSessionId` returns the id stored under `session_id`. When no id is
  stored, it first generates one from the template `xxxx-xxxx-xxxx-xxxx` and
  stores it. `getUserId` returns the value under `user_id`, or `null` when
  that value is missing or empty.

`localStorage` is one object shared by the whole page. It is modelled as the
class `WebStorage.LocalStorage`, whose field `items: map<string, string>` is
reassigned by `SetItem` and `RemoveItem`. The user store keeps a reference to
this object in its `storage` field. `GetSessionId` changes the same object.
So the frame conditions really do cover the other file's keys: "logout leaves
`session_id` and `user_id` alone" is one of them.

JavaScript truthiness is modelled explicitly. `''` and `null` are both falsy,
so `WebStorage.Present(items, k)` means "`k` is in the map and its value is
not `""`". `WebStorage.Truthy` is `!!v` for a `string | null` value, and
`WebStorage.Or` is `a || b`.

`Math.random()` is not modelled. `generateSessionId` receives its random
draws as a sequence of sixteen nibbles (integers `0..15`), one for each `x`
in the template, taken left to right.

Behaviour the model exposes: a sign-in with an empty e-mail address and a
non-empty token counts as logged in on the current page. After a reload,
though, the new page comes up signed out, because `loadFromLocalStorage`
requires both stored values to be truthy. `User.ReloadAfterLogin` states this
in both directions.

The store holds two fields, `email` and `token`.

Files: `web_storage.dfy` (module `WebStorage`), `user.dfy` (module `User`),
`session.dfy` (module `Session`).

## Model

| member | source | states |
|---|---|---|
| `WebStorage.Or` | src/utils/session.ts:12 | JavaScript's logical or yields one of its operands; the result is truthy exactly when either operand is; a truthy left operand is the result; a falsy result is the right operand, which is how `getUserId` turns `''` into `null` |
| `WebStorage.LocalStorage.GetItem` | src/stores/user.ts:25-26 | `getItem` returns the stored string when the key exists and `null` otherwise; its result is truthy exactly when the key is present with a non-empty value |
| `WebStorage.LocalStorage.SetItem` | src/stores/user.ts:15-16 | `setItem` binds the key to the value and leaves every other key as it was |
| `WebStorage.LocalStorage.RemoveItem` | src/stores/user.ts:21-22 | `removeItem` deletes only that key; deleting a missing key changes nothing |
| `User.UserStore.constructor` | src/stores/user.ts:4-7 | a new store starts with `email` and `token` empty, so it is not logged in |
| `User.UserStore.IsLoggedIn` | src/stores/user.ts:9 | `isLoggedIn` holds exactly when `token` is non-empty |
| `User.UserStore.Login` | src/stores/user.ts:12-17 | afterwards `email` and `token` are the arguments, `auth_token` maps to the token and `user_email` to the e-mail, every other key keeps its value, and the store is logged in exactly when the token is non-empty |
| `User.UserStore.Logout` | src/stores/user.ts:18-23 | afterwards both fields are empty, the store is not logged in, `auth_token` and `user_email` are gone, and every other key (such as `session_id` and `user_id`) keeps its value |
| `User.UserStore.LoadFromLocalStorage` | src/stores/user.ts:24-31 | storage is unchanged; when both keys are present with non-empty values the fields take them (so the store is logged in and the fields match storage); otherwise both fields keep their old values |
| `User.ReloadAfterLogin` | src/stores/user.ts:12-31 | `login(e, t)` followed by a fresh store that runs `loadFromLocalStorage` gives back `e` and `t` when both are non-empty, and leaves the new store empty and signed out otherwise; keys other than the two auth keys are not touched |
| `User.ReloadAfterLogout` | src/stores/user.ts:18-31 | `logout` followed by a fresh store that runs `loadFromLocalStorage` leaves the new store empty and signed out |
| `Session.HexDigit` | src/utils/session.ts:17 | the digit for a draw in `0..15` is one character of `0-9a-f`, and it reads back as the same draw |
| `Session.SessionIdTemplateShape` | src/utils/session.ts:16 | the template is 19 characters long, with `-` at 4, 9 and 14 and `x` everywhere else |
| `Session.SessionIdTemplatePlaceholders` | src/utils/session.ts:16 | `/[x]/g` matches the template sixteen times, so one id uses sixteen draws |
| `Session.FillTemplate` | src/utils/session.ts:16-18 | the replacement has the template's length, a lowercase hexadecimal digit at every `x`, and the template's own character everywhere else |
| `Session.TemplateNibbles` | src/utils/session.ts:16-18 | reading the digits back from the `x` positions gives one draw for each placeholder |
| `Session.TemplateNibblesOfFill` | src/utils/session.ts:16-18 | reading the digits back from a filled template gives exactly the draws that filled it |
| `Session.GenerateSessionId` | src/utils/session.ts:15-19 | a generated id has length 19 and `-` at indices 4, 9 and 14. Every other index holds a character from `0-9a-f` |
| `Session.GenerateSessionIdInjective` | src/utils/session.ts:15-19 | two different sequences of draws never give the same id |
| `Session.GetUserId` | src/utils/session.ts:11-13 | the result is the value under `user_id` when that value is present and non-empty, and `null` otherwise; it is a read, so storage does not change |
| `Session.GetSessionIdEffect` | src/utils/session.ts:2-9 | a present, non-empty `session_id` is returned and storage is unchanged; otherwise the generated id is returned. Either way the returned id is then present under `session_id`, and no other key is added, removed or changed |
| `Session.GetSessionIdIdempotent` | src/utils/session.ts:2-9 | a second call returns the same id and leaves storage as the first call left it, whatever it draws |
| `Session.GetSessionId` | src/utils/session.ts:2-9 | the returned id and the new storage are exactly those given by `GetSessionIdEffect` on the old storage |

## Left out

- `Math.random() * 16 | 0`: floating-point randomness is not modelled. The draws are an input sequence of integers in `0..15`, which is what the truncation produces.
- `setItem` can throw when the browser's storage quota is exceeded or storage is disabled. The model treats storage writes as always succeeding.
- Changes to `localStorage` made by other tabs (storage events) are not modelled. The model assumes a single tab on one event loop.
- Pinia's `defineStore`, reactivity and the store singleton are not modelled. The store is a plain class, and a page reload is modelled as a fresh store over the same storage object.
- `src/main.ts` is not modelled. Its only relevant act is calling `loadFromLocalStorage` once at startup, which `User.ReloadAfterLogin` and `User.ReloadAfterLogout` stand in for.
- `src/utils/analytics.ts` is not modelled: it makes network calls through `axios` and logs to the console.
- `src/router/index.ts` is not modelled: it is a static route table with no guard, so there is no access decision to model.
- The build configuration, the chart types and the calendar component declaration have no behaviour of their own.
