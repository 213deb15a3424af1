/** The `WeatherApp` component: its `useState` cells as the fields of a class
    and each event handler as a method that runs to completion. Randomness and
    the two network calls are parameters: the drawn code, the reply of the
    account-creation endpoint, and the outcome of the weather query. */
module WeatherApp {
  import opened Js
  import Password
  import Otp

  datatype LoginDetails = LoginDetails(username: string, password: string, phone: string, otp: string)

  /** The `weather` cell; `P` is the weather provider's response body, which
      the component stores without looking into it. */
  datatype WeatherState<P> = WeatherState(loading: bool, data: Option<P>, error: bool)

  /** What the POST to the account-creation endpoint comes back with: the
      `success` field of its JSON body, or a failure to connect or to parse. */
  datatype ServerReply = Ok(success: bool) | ConnFail

  /** What the weather query comes back with. */
  datatype FetchOutcome<P> = Success(payload: P) | Failure

  const PasswordMessage: string :=
    "Password must be at least 8 characters long, include a number and a special character."

  const PhoneLength: nat := 10

  const EnterKey: string := "Enter"

  class App<P> {
    var input: string
    var weather: WeatherState<P>
    var isLoggedIn: bool
    var loginDetails: LoginDetails
    var generatedOTP: Option<int>
    var otpSent: bool
    var otpError: bool
    var passwordError: string

    /** What holds between events: a stored code is a six-digit code, a code
        has been sent exactly when one is stored, the password message is
        either cleared or the policy text, and no weather query is pending
        (each handler runs to completion) nor does an error come with data. */
    ghost predicate Valid()
      reads this
    {
      && (generatedOTP.Some? ==> Otp.InCodeRange(generatedOTP.value))
      && otpSent == generatedOTP.Some?
      && (passwordError == "" || passwordError == PasswordMessage)
      && !weather.loading
      && (weather.error ==> weather.data.None?)
    }

    /** The login succeeds on the code when a code has been generated and
        the typed code matches it. */
    predicate CodeAccepted()
      reads this
    {
      generatedOTP.Some? && Otp.Matches(loginDetails.otp, generatedOTP.value)
    }

    /** The initial values of the `useState` cells. */
    constructor ()
      ensures Valid()
      ensures input == "" && weather == WeatherState(false, None, false)
      ensures !isLoggedIn && loginDetails == LoginDetails("", "", "", "")
      ensures generatedOTP == None && !otpSent && !otpError && passwordError == ""
    {
      input := "";
      weather := WeatherState(false, None, false);
      isLoggedIn := false;
      loginDetails := LoginDetails("", "", "", "");
      generatedOTP := None;
      otpSent := false;
      otpError := false;
      passwordError := "";
    }

    /** The username field's change handler. */
    method SetUsername(value: string)
      requires Valid()
      modifies this`loginDetails
      ensures Valid()
      ensures loginDetails == old(loginDetails).(username := value)
    {
      loginDetails := loginDetails.(username := value);
    }

    /** The password field's change handler. */
    method SetPassword(value: string)
      requires Valid()
      modifies this`loginDetails
      ensures Valid()
      ensures loginDetails == old(loginDetails).(password := value)
    {
      loginDetails := loginDetails.(password := value);
    }

    /** The phone field's change handler. */
    method SetPhone(value: string)
      requires Valid()
      modifies this`loginDetails
      ensures Valid()
      ensures loginDetails == old(loginDetails).(phone := value)
    {
      loginDetails := loginDetails.(phone := value);
    }

    /** The code field's change handler. */
    method SetOtp(value: string)
      requires Valid()
      modifies this`loginDetails
      ensures Valid()
      ensures loginDetails == old(loginDetails).(otp := value)
    {
      loginDetails := loginDetails.(otp := value);
    }

    /** The city field's change handler. */
    method SetInput(value: string)
      requires Valid()
      modifies this`input
      ensures Valid()
      ensures input == value
    {
      input := value;
    }

    /** `sendOTP`, with `code` the value the random draw produced (see
        Otp.DrawnCode). A phone of exactly ten UTF-16 code units stores the
        code and marks it sent; any other length only raises the code error. */
    method SendOTP(code: int)
      requires Valid()
      requires Otp.InCodeRange(code)
      modifies this`generatedOTP, this`otpSent, this`otpError
      ensures Valid()
      ensures Utf16Length(loginDetails.phone) == PhoneLength ==>
        generatedOTP == Some(code) && otpSent && !otpError
      ensures Utf16Length(loginDetails.phone) != PhoneLength ==>
        otpError && generatedOTP == old(generatedOTP) && otpSent == old(otpSent)
    {
      if Utf16Length(loginDetails.phone) == PhoneLength {
        generatedOTP := Some(code);
        otpSent := true;
        otpError := false;
      } else {
        otpError := true;
      }
    }

    /** `handleLogin`, with `reply` what the account-creation endpoint answers
        (consulted only when the code is accepted). A password that fails the
        policy only sets the policy message. Otherwise the message is cleared;
        an accepted code sets the session flag to the endpoint's verdict, and
        a code that is missing or does not match raises the code error. */
    method HandleLogin(reply: ServerReply)
      requires Valid()
      modifies this`passwordError, this`otpError, this`isLoggedIn
      ensures Valid()
      ensures !Password.SatisfiesPolicy(loginDetails.password) ==>
        passwordError == PasswordMessage && otpError == old(otpError) && isLoggedIn == old(isLoggedIn)
      ensures Password.SatisfiesPolicy(loginDetails.password) ==> passwordError == ""
      ensures Password.SatisfiesPolicy(loginDetails.password) && CodeAccepted() ==>
        isLoggedIn == (reply == Ok(true)) && otpError == old(otpError)
      ensures Password.SatisfiesPolicy(loginDetails.password) && !CodeAccepted() ==>
        otpError && isLoggedIn == old(isLoggedIn)
      ensures isLoggedIn != old(isLoggedIn) ==>
        Password.SatisfiesPolicy(loginDetails.password) && CodeAccepted()
      ensures isLoggedIn && !old(isLoggedIn) ==>
        Password.SatisfiesPolicy(loginDetails.password) && CodeAccepted() && reply == Ok(true)
    {
      Password.ValidatePasswordIff(loginDetails.password);
      if !Password.ValidatePassword(loginDetails.password) {
        passwordError := PasswordMessage;
        return;
      }
      passwordError := "";
      if IsTruthy(generatedOTP) && Otp.Matches(loginDetails.otp, generatedOTP.value) {
        match reply
        case Ok(success) => isLoggedIn := success;
        case ConnFail => isLoggedIn := false;
      } else {
        otpError := true;
      }
    }

    /** `searchWeather` for a key press `key`, with `outcome` what the weather
        query comes back with. Only Enter on a city name that is not all white
        space starts a query: it first marks the query pending (`pending` is
        the state at that point) and then replaces the whole state by the data
        or by the error. */
    method SearchWeather(key: string, outcome: FetchOutcome<P>) returns (started: bool, ghost pending: WeatherState<P>)
      requires Valid()
      modifies this`weather
      ensures Valid()
      ensures started <==> key == EnterKey && !IsBlank(input)
      ensures !started ==> weather == old(weather)
      ensures started ==> pending == old(weather).(loading := true)
      ensures started && outcome.Success? ==> weather == WeatherState(false, Some(outcome.payload), false)
      ensures started && outcome.Failure? ==> weather == WeatherState(false, None, true)
    {
      pending := weather;
      started := key == EnterKey && Trim(input) != [];
      TrimEmptyIff(input);
      if started {
        weather := weather.(loading := true);
        pending := weather;
        match outcome
        case Success(payload) => weather := WeatherState(false, Some(payload), false);
        case Failure => weather := WeatherState(false, None, true);
      }
    }
  }

  /** Sending a code twice and then logging in: only the newer code counts.
      The session flag can change only if the typed code matches the newer
      code, and a login with the older code fails whenever the two differ. */
  method ResendThenLogin<P>(app: App<P>, first: int, second: int, reply: ServerReply)
    requires app.Valid()
    requires Otp.InCodeRange(first) && Otp.InCodeRange(second)
    requires Utf16Length(app.loginDetails.phone) == PhoneLength
    requires Password.SatisfiesPolicy(app.loginDetails.password)
    modifies app
    ensures app.Valid()
    ensures app.generatedOTP == Some(second)
    ensures app.isLoggedIn != old(app.isLoggedIn) ==> Otp.Matches(app.loginDetails.otp, second)
    ensures Otp.Matches(app.loginDetails.otp, first) && first != second ==>
      app.isLoggedIn == old(app.isLoggedIn) && app.otpError
  {
    app.SendOTP(first);
    app.SendOTP(second);
    app.HandleLogin(reply);
    if Otp.Matches(app.loginDetails.otp, first) && first != second {
      Otp.MatchesAtMostOne(app.loginDetails.otp, first, second);
    }
  }

  /** The whole session from a fresh component: the user fills in the form,
      requests a code, types back the code exactly as shown, and submits; the
      session opens exactly when the endpoint reports success. */
  method LoginWithShownCode<P>(username: string, password: string, phone: string, code: int, reply: ServerReply)
      returns (app: App<P>)
    requires Password.SatisfiesPolicy(password)
    requires Utf16Length(phone) == PhoneLength
    requires Otp.InCodeRange(code)
    ensures app.Valid()
    ensures app.isLoggedIn <==> reply == Ok(true)
    ensures app.passwordError == "" && !app.otpError
  {
    var shown := Otp.DecimalString(code);
    Otp.MatchesRendering(code);
    app := new App<P>();
    app.SetUsername(username);
    app.SetPassword(password);
    app.SetPhone(phone);
    app.SendOTP(code);
    app.SetOtp(shown);
    assert app.loginDetails == LoginDetails(username, password, phone, shown);
    assert app.CodeAccepted();
    app.HandleLogin(reply);
  }
}
