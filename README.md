# Weather widget login gate and search, in Dafny

The React component `WeatherApp` (`src/Components/Weather.jsx`) shows a login
form until the user is logged in, then a city search box. Under the rendering
it keeps eight `useState` cells and a handful of event handlers:

- `validatePassword`: a fixed regular expression, the password policy;
- `sendOTP`: draws a six-digit code when the phone number has ten characters;
- `handleLogin`: checks the password policy, compares the typed code with
  the drawn one using JavaScript loose equality, and on a match asks an
  account-creation endpoint whether the session opens;
- `searchWeather`: on Enter over a city name that is not blank, marks the
  query pending, then stores the provider's response or an error flag;
- the `onChange` handlers of the five input fields.

This project models that logic with the side effects turned into parameters.

- `js.dfy`, module `Js`: the JavaScript built-ins the component uses.
  These are `trim` and the white space it removes, `.length` in UTF-16 code
  units, and the truthiness of a cell that holds `null` or a number.
- `password.dfy`, module `Password`: the regular expression written out as
  the matcher it denotes: two `(?=.*[K])` lookaheads and an anchored
  `[K]{8,}$`. It is proved equal to the policy in plain words.
- `otp.dfy`, module `Otp`: the code draw, the decimal rendering the user is
  shown, and `Matches`, the string-to-number comparison behind `==`.
- `weather_app.dfy`, module `WeatherApp`: class `App` holds the state
  cells as fields. Each handler is a method guarded by a field-level
  `modifies` frame, so any field a method does not name is unchanged. Two
  client methods play out whole scenarios: resending a code, and a login
  from a fresh component.

Strings are sequences of Unicode scalar values, where JavaScript uses UTF-16
code units. The character classes the component tests are white space, ASCII
letters, digits, `!@#$%^&*` and the regular expression's `.`. All but `.` lie
in the Basic Multilingual Plane. `.` matches any character except a line
terminator, so it matches a surrogate pair in JavaScript just as it matches
the single scalar in the model. So the regular expression and `trim` give the
same answers under both views. A character outside that plane can never
belong to the password class, so `{8,}` counted in code units accepts exactly
what it accepts counted in scalars. Only the phone check compares a raw `.length`, and there the model
uses `Js.Utf16Length`.

External inputs become parameters:

- the random draw becomes the drawn `code`, with `Otp.DrawnCode` showing the
  range that line 23 produces;
- the reply of `POST /create-user` becomes `ServerReply`: `Ok(success)`, or
  `ConnFail` for a failed fetch or unparsable body;
- the weather query becomes `FetchOutcome`: `Success(payload)` with an
  opaque payload type `P`, or `Failure`.

Four behaviours of the code are easy to miss:

- A failed password check does change state: it sets `passwordError`.
- `handleLogin` with an accepted code sets `isLoggedIn` to the endpoint's
  verdict. So a later failed reply could set it back to false. Only the view
  prevents that, because it removes the login form once the user is logged
  in.
- An accepted code does not clear an earlier `otpError`.
- The stored weather state is the provider's raw response. Rounding the
  temperature to whole degrees happens in the view.

## Model

| member | source | states |
|---|---|---|
| Js.TrimStartIsSuffix | src/Components/Weather.jsx:61 | dropping leading white space leaves a suffix of the input, everything dropped is white space, and what is left does not start with white space |
| Js.TrimEndIsPrefix | src/Components/Weather.jsx:61 | dropping trailing white space leaves a prefix of the input, everything dropped is white space, and what is left does not end with white space |
| Js.TrimAroundWord | src/Components/Weather.jsx:61 | `trim` gives back exactly a word that neither starts nor ends with white space, whatever white space surrounds it |
| Js.TrimEmptyIff | src/Components/Weather.jsx:61 | `input.trim()` is empty (falsy) exactly when every character of `input` is white space |
| Js.Utf16Length | src/Components/Weather.jsx:22 | `.length` lies between the number of characters and twice that, and equals the number of characters exactly when no character lies outside the Basic Multilingual Plane |
| Js.Utf16LengthAppend | src/Components/Weather.jsx:22 | `.length` of a concatenation is the sum of the `.length`s of its parts |
| Password.DotStarThenIff | src/Components/Weather.jsx:19 | a lookahead `(?=.*[K])` succeeds exactly when some character of class K is preceded only by non-line-terminators |
| Password.ClassRunToEndIff | src/Components/Weather.jsx:19 | `[a-zA-Z0-9!@#$%^&*]{n,}$` accepts exactly the inputs of length at least n made only of those characters |
| Password.ValidatePasswordIff | src/Components/Weather.jsx:19 | `validatePassword(p)` holds exactly when p has at least 8 characters, all in `[A-Za-z0-9!@#$%^&*]`, at least one digit and at least one of `!@#$%^&*` |
| Otp.DrawnCode | src/Components/Weather.jsx:23 | for a draw 0 <= r < 1, `Math.floor(100000 + r * 900000)` is the floor of that value and lies in [100000, 999999] |
| Otp.CodeHasSixDigits | src/Components/Weather.jsx:23 | every drawn code renders as exactly six decimal digits |
| Otp.DecimalString | src/Components/Weather.jsx:27 | the rendering of a number shown to the user is a non-empty string of decimal digits |
| Otp.DecimalRoundTrip | src/Components/Weather.jsx:41 | converting the rendering of n back to a number gives n |
| Otp.LeadingZeroIgnored | src/Components/Weather.jsx:41 | a leading zero does not change the number a digit string converts to |
| Otp.MatchesAtMostOne | src/Components/Weather.jsx:41 | a typed code that loosely equals one number equals no other number |
| Otp.MatchesShownCode | src/Components/Weather.jsx:41 | the shown code, typed back with any white space around it, loosely equals the code |
| Otp.MatchesRendering | src/Components/Weather.jsx:41 | the shown code typed back verbatim loosely equals the code |
| WeatherApp.App.constructor | src/Components/Weather.jsx:10-17 | the initial values of all eight state cells, and the component invariant `Valid` |
| WeatherApp.App.SetUsername | src/Components/Weather.jsx:84 | only `loginDetails.username` changes, to the typed value |
| WeatherApp.App.SetPassword | src/Components/Weather.jsx:91 | only `loginDetails.password` changes, to the typed value |
| WeatherApp.App.SetPhone | src/Components/Weather.jsx:99 | only `loginDetails.phone` changes, to the typed value |
| WeatherApp.App.SetOtp | src/Components/Weather.jsx:108 | only `loginDetails.otp` changes, to the typed value |
| WeatherApp.App.SetInput | src/Components/Weather.jsx:123 | only the city input changes, to the typed value |
| WeatherApp.App.SendOTP | src/Components/Weather.jsx:21-31 | phone of length 10: the code is stored, marked sent, error cleared; other length: only the code error is raised, the stored code and the sent flag keep their values; nothing else changes and the invariant (stored code in range, sent iff stored) is kept |
| WeatherApp.App.HandleLogin | src/Components/Weather.jsx:33-58 | a policy failure sets only the fixed message; a policy pass clears it, then an accepted code sets `isLoggedIn` to the endpoint's `success` (false on connection failure) and leaves `otpError`, a missing or mismatched code sets `otpError` and leaves `isLoggedIn`; `isLoggedIn` changes only with a valid password and an accepted code, and becomes true only when the endpoint also says so |
| WeatherApp.App.SearchWeather | src/Components/Weather.jsx:60-72 | a query starts exactly on key `Enter` with a non-blank input; otherwise the state is unchanged; a started query first keeps data and error with `loading` true, then ends at `{data: payload, loading: false, error: false}` or `{data: null, loading: false, error: true}` |
| WeatherApp.ResendThenLogin | src/Components/Weather.jsx:21-58 | after two code requests the newer code is the stored one; the session flag can change only if the typed code matches the newer code; typing the older code fails with the code error whenever the two codes differ |
| WeatherApp.LoginWithShownCode | src/Components/Weather.jsx:21-58 | from a fresh component, a policy-valid password, a ten-character phone and the shown code typed back open the session exactly when the endpoint reports success, with no error shown |

## Left out

- Rendering, animation, the spinner, the icon, the background image and all styling (lines 74-142): presentation only. The view also decides which handlers are connected at any time. The model lets any handler run in any state.
- `alert` and `console.error`: notifications with no effect on state.
- `e.preventDefault()` in `handleLogin`: browser form behaviour, not component state.
- The HTTP requests themselves (the `fetch` POST, the `axios.get`), their URLs, headers, body encoding and the API key: network I/O and configuration. Only their outcomes enter the model, as parameters.
- `Math.random`: randomness. `SendOTP` takes the drawn code. `Otp.DrawnCode` uses exact real arithmetic where JavaScript uses binary64 floating point.
- `Math.round` of the temperature and `toLocaleDateString` in the view: float rounding and the host clock.
- Overlapping asynchronous logins and searches, and the `...weather` spread captured before the `await`: interleavings. Each handler runs to completion in the model, so `Valid` may state that no query stays pending between events.
- `data.success` of a type other than boolean: the endpoint's `success` field is taken to be a boolean.
- Otp.Matches: covers only the decimal-digit strings of JavaScript's string-to-number conversion (white space around them allowed, the empty string as 0). JavaScript's loose equality also accepts forms such as `"+123456"`, `"123456.0"`, `"1.23456e5"` or `"0x1E240"`, which the model rejects. The model is therefore stricter than the source here.
- Digit strings long enough to round as binary64 numbers: no such string is within rounding distance of a six-digit code, so exact integers give the same comparison.
- Field values holding an unpaired surrogate: a JavaScript string can contain one, but a Dafny `char` is a Unicode scalar value and cannot. Such inputs are not modelled.
