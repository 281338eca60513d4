# Sign-in form controller

A Dafny model of the credential form of the video-meeting client
(`src/components/Auth.js`). A submit checks its input in a fixed order:
empty fields, then the e-mail shape, then a password of at least 8
characters. It then either logs in against an in-memory account list or
signs up by appending to that list. A link switches between the login
and sign-up modes.

- `email.dfy`, module `EmailPattern`: the regular expression
  `^[^\s@]+@[^\s@]+\.[^\s@]+$` as a predicate over characters (`IsValidEmail`),
  and a proof that it accepts exactly the inputs with no whitespace, a single
  `@` that is not first, and a later dot with at least one character on each
  side of it.
- `users.dfy`, module `Credentials`: the account entries, the `some` and
  `find` lookups as recursive functions, and the module-level `validUsers`
  array as a `UserStore` object. The store outlives any one form and grows
  with `Push`.
- `auth.dfy`, module `Auth`: the outcomes of a submit and their messages;
  `Decide`, which states the outcome of a submit from the mode, the inputs and
  the list; lemmas about it; and the `AuthForm` class. Its `Submit`, `Toggle`,
  `SetEmail` and `SetPassword` methods update the form's fields and the shared
  store in place, and are proved against `Decide` and `UsersAfter`.

`AuthForm.Valid()` holds after every method: at most one message is
showing, and no address appears twice in the account list. So the
addresses stay distinct after any sequence of submits, toggles and edits.

The parent's `setIsAuthenticated` callback is modelled as the
`authenticated` field. Its initial value is a constructor parameter,
because the component that mounts the form is not part of this model.

## Model

| member | source | states |
|---|---|---|
| `EmailPattern.IsValidEmail` | src/components/Auth.js:27 | The regex test: the input splits into run `@` run `.` run, each run a non-empty stretch of characters other than `@` and whitespace; an accepted input has at least five characters and starts and ends with such a character |
| `EmailPattern.EmailShape` | src/components/Auth.js:27 | The address pattern holds iff the input has no whitespace, exactly one `@` (not first), and a dot after it with at least one character between `@` and dot and at least one after the dot; dots may also appear between them |
| `EmailPattern.DemoAddressIsValid` | src/components/Auth.js:5 | The seeded account's address `user@example.com` passes the address check |
| `EmailPattern.RejectsSpace` | src/components/Auth.js:27 | Any whitespace character anywhere in the input makes the address check fail |
| `EmailPattern.RejectsLeadingAt` | src/components/Auth.js:27 | An input that starts with `@` (empty local part) fails the address check |
| `Credentials.EmailRegistered` | src/components/Auth.js:49 | True iff some entry of the list carries the address, whatever its password |
| `Credentials.FindCredentials` | src/components/Auth.js:40 | Finds the first entry with both the address and the password; none is found iff no such entry exists |
| `Credentials.AppendUnregistered` | src/components/Auth.js:49-54 | Appending an entry whose address is not registered keeps the list's addresses pairwise distinct |
| `Credentials.UserStore.constructor` | src/components/Auth.js:4-6 | The account list starts as the single demo account |
| `Credentials.UserStore.Push` | src/components/Auth.js:54 | `push` appends exactly one entry at the end and keeps the earlier entries |
| `Auth.ErrorText` | src/components/Auth.js:21-51 | The error text is non-empty exactly for the five failing outcomes |
| `Auth.SuccessText` | src/components/Auth.js:38-56 | The success text is non-empty exactly for a log-in or a sign-up |
| `Auth.Decide` | src/components/Auth.js:21-59 | The outcome of a submit: a success only for input that passes all three checks; login mode never gives a sign-up outcome, nor sign-up mode a login one; a log-in iff login mode, valid input and the exact entry is in the list; a sign-up iff sign-up mode, valid input and no entry has the address |
| `Auth.UsersAfter` | src/components/Auth.js:54 | The list after a submit keeps every earlier entry in place and grows by exactly one entry, `(email, password)` at the end, only on a sign-up |
| `Auth.ValidationOrder` | src/components/Auth.js:21-36 | Empty field, then malformed address, then short password: only the first failing check is reported, and a rejected input leaves the list unchanged |
| `Auth.LoginSucceedsIff` | src/components/Auth.js:38-46 | In login mode, valid input logs in iff some entry has exactly that address and that password, and otherwise gives "Invalid email or password"; the list is unchanged |
| `Auth.SignUpSucceedsIff` | src/components/Auth.js:47-59 | In sign-up mode, valid input signs up iff no entry has the address, and appends exactly `(email, password)` at the end; otherwise it gives "Email already registered" and leaves the list unchanged |
| `Auth.SignUpThenLogIn` | src/components/Auth.js:38-58 | After a sign-up, logging in with the same address and password succeeds |
| `Auth.SignUpTwiceRefused` | src/components/Auth.js:49-54 | After a sign-up, a second sign-up with the same address is refused, whatever password it gives; with a password of at least 8 characters the refusal is "Email already registered" |
| `Auth.SubmitKeepsEmailsDistinct` | src/components/Auth.js:49-54 | If the list's addresses are distinct before a submit, they still are after it, in either mode and for any input |
| `Auth.DemoUserLogsIn` | src/components/Auth.js:4-6 | The demo account's credentials log in against the initial list |
| `Auth.AuthForm.constructor` | src/components/Auth.js:9-13 | A new form is in login mode, with empty inputs and no messages |
| `Auth.AuthForm.SetEmail` | src/components/Auth.js:74 | Editing the address field sets `email` and nothing else |
| `Auth.AuthForm.SetPassword` | src/components/Auth.js:81 | Editing the password field sets `password` and nothing else |
| `Auth.AuthForm.Toggle` | src/components/Auth.js:89-93 | The mode link flips `isLogin` and clears both messages; inputs, `authenticated` and the list are unchanged |
| `Auth.AuthForm.Submit` | src/components/Auth.js:15-61 | Afterwards exactly one message shows, the one for the outcome of the checks on the old state. A sign-up appends the entry, switches to login and clears both inputs. A log-in sets `authenticated`. Every other outcome changes only the messages. The list's addresses stay distinct |

## Left out

- `e.preventDefault()` (src/components/Auth.js:16) and the JSX rendering (src/components/Auth.js:63-99) are browser and UI behaviour; only the input handlers and the mode link are modelled.
- The browser's own form validation is not modelled: `type="email"`, `required` and `minLength="8"` on the inputs may block a submit before the handler runs. The model describes the handler as if it were reached.
- React batches state updates and applies them after the handler returns. The handler reads its state before any setter takes effect, so applying the updates in order, as the model does, ends in the same state.
- `\s` is modelled as the ECMAScript WhiteSpace and LineTerminator code points. A regex engine whose Unicode tables differ in the space-separator category could disagree on exotic characters.
- `password.length` counts UTF-16 code units. The model counts characters, so a password with characters outside the Basic Multilingual Plane can differ in length.
- Room membership and fan-out are left to the socket.io library in `server/server.js` and are not modelled. The `mute-user`, `remove-user` and `disconnect` handlers there refer to `socket` outside any connection callback (server/server.js:18), so loading that module throws a ReferenceError and nothing in it runs, `server.listen` included.
- Media capture and the peer handshakes in `src/components/Room.js` are not modelled. Neither is the random room-id generation and join emit in `src/components/Home.js`. `src/App.js` and `src/components/Videocall.js` only wire routes and video elements.
