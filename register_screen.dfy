/** The sign-up screen (PhotoAppFrontend/app/register.js): field filters and
    validity flags, the enabled rule of the button, and the three steps: send
    an SMS code, confirm it, then register with the backend. Firebase's
    answers and the server's answer arrive as method parameters; what the
    screen sends is recorded in order. */
module RegisterScreen {
  import opened Strings
  import opened Patterns

  const PhoneDigits := 10
  const MinPassword := 6
  const CodeLength := 6
  const CountryPrefix := "+90"

  /** The JSON body posted to /register. */
  datatype RegisterBody = RegisterBody(username: string, email: string, password: string, phoneNumber: string)

  /** The phone flag: empty or exactly ten digits. */
  predicate PhoneFlag(phone: string) {
    |phone| == 0 || |phone| == PhoneDigits
  }

  /** The password flag: empty or at least six characters. */
  predicate PasswordFlag(password: string) {
    |password| == 0 || |password| >= MinPassword
  }

  /** `isRegisterEnabled`. */
  predicate RegisterEnabled(username: string, email: string, emailValid: bool, password: string, phone: string) {
    |username| > 0 && |email| > 0 && emailValid && |password| >= MinPassword && |phone| == PhoneDigits
  }

  /** With the e-mail flag describing the e-mail text, the button is enabled
      exactly for a non-empty name, an e-mail in the pattern, a password of
      six or more characters and a ten-digit phone; every flag then holds. */
  lemma RegisterEnabledSpec(username: string, email: string, password: string, phone: string)
    ensures RegisterEnabled(username, email, EmailFlag(email), password, phone)
        <==> username != "" && EmailShape(email) && |password| >= MinPassword && |phone| == PhoneDigits
    ensures RegisterEnabled(username, email, EmailFlag(email), password, phone)
        ==> EmailFlag(email) && PasswordFlag(password) && PhoneFlag(phone)
  {
    EmailFlagSpec(email);
    if EmailShape(email) {
      var local, domain :| DotPlus(local) && DotPlus(domain) && email == local + "@" + domain + ".com";
      assert |email| > 0;
    }
  }

  /** The phone text after `handlePhoneChange(text)`: the digits of `text`,
      unless there are more than ten of them, when the old text stays. */
  function PhoneAfterInput(current: string, text: string): (r: string)
    ensures |KeepDigits(text)| <= PhoneDigits ==> r == KeepDigits(text)
    ensures |KeepDigits(text)| > PhoneDigits ==> r == current
    ensures AllDigits(current) && |current| <= PhoneDigits ==> AllDigits(r) && |r| <= PhoneDigits
  {
    var digits := KeepDigits(text);
    if |digits| <= PhoneDigits then digits else current
  }

  /** The number the SMS goes to. */
  function SmsNumber(phone: string): (r: string)
    ensures StartsWith(r, CountryPrefix) && r[3..] == phone
    ensures |phone| == PhoneDigits ==> |r| == 13
  {
    CountryPrefix + phone
  }

  class Registration {
    var username: string
    var email: string
    var password: string
    var phoneNumber: string
    var loading: bool
    /** Whether `confirm` holds Firebase's confirmation object. */
    var confirmPending: bool
    var verificationCode: string
    var modalVisible: bool
    var isPhoneValid: bool
    var isPasswordValid: bool
    var isEmailValid: bool
    /** The numbers an SMS code was requested for, oldest first. */
    var smsRequests: seq<string>
    /** The codes handed to `confirm.confirm`, oldest first. */
    var verifications: seq<string>
    /** The bodies posted to /register, oldest first. */
    var registrations: seq<RegisterBody>

    /** The flags describe the fields, and the phone is at most ten digits. */
    ghost predicate Valid()
      reads this
    {
      && isEmailValid == EmailFlag(email)
      && isPhoneValid == PhoneFlag(phoneNumber)
      && isPasswordValid == PasswordFlag(password)
      && AllDigits(phoneNumber) && |phoneNumber| <= PhoneDigits
      && (modalVisible ==> confirmPending)
    }

    constructor ()
      ensures Valid()
      ensures username == "" && email == "" && password == "" && phoneNumber == "" && verificationCode == ""
      ensures !loading && !confirmPending && !modalVisible
      ensures smsRequests == [] && verifications == [] && registrations == []
    {
      username := "";
      email := "";
      password := "";
      phoneNumber := "";
      loading := false;
      confirmPending := false;
      verificationCode := "";
      modalVisible := false;
      isPhoneValid := true;
      isPasswordValid := true;
      isEmailValid := true;
      smsRequests := [];
      verifications := [];
      registrations := [];
    }

    predicate Enabled()
      reads this
    {
      RegisterEnabled(username, email, isEmailValid, password, phoneNumber)
    }

    method SetUsername(text: string)
      requires Valid()
      modifies this`username
      ensures Valid() && username == text
    {
      username := text;
    }

    /** `handleEmailChange`. */
    method HandleEmailChange(text: string)
      requires Valid()
      modifies this`email, this`isEmailValid
      ensures Valid() && email == text && isEmailValid == EmailFlag(text)
    {
      email := text;
      isEmailValid := |text| == 0 || MatchesEmail(text);
    }

    /** `handlePhoneChange`: non-digits are dropped; more than ten digits
        are ignored altogether. */
    method HandlePhoneChange(text: string)
      requires Valid()
      modifies this`phoneNumber, this`isPhoneValid
      ensures Valid()
      ensures phoneNumber == PhoneAfterInput(old(phoneNumber), text)
      ensures |KeepDigits(text)| > PhoneDigits ==> unchanged(this`phoneNumber, this`isPhoneValid)
    {
      var numeric := KeepDigits(text);
      if |numeric| <= PhoneDigits {
        phoneNumber := numeric;
        isPhoneValid := |numeric| == 0 || |numeric| == PhoneDigits;
      }
    }

    /** `handlePasswordChange`. */
    method HandlePasswordChange(text: string)
      requires Valid()
      modifies this`password, this`isPasswordValid
      ensures Valid() && password == text && isPasswordValid == PasswordFlag(text)
    {
      password := text;
      isPasswordValid := |text| == 0 || |text| >= MinPassword;
    }

    method SetVerificationCode(text: string)
      requires Valid()
      modifies this`verificationCode
      ensures Valid() && verificationCode == text
    {
      verificationCode := text;
    }

    /** `handleSendSMS`: refused unless registration is enabled; otherwise a
        code is requested for "+90" and the ten digits, and on success the
        confirmation is kept and the code dialog opens. */
    method HandleSendSms(delivered: bool)
      requires Valid()
      modifies this`smsRequests, this`confirmPending, this`modalVisible, this`loading
      ensures Valid()
      ensures !old(Enabled()) ==> unchanged(this)
      ensures old(Enabled()) ==>
                && smsRequests == old(smsRequests) + [SmsNumber(phoneNumber)]
                && |SmsNumber(phoneNumber)| == 13 && !loading
      ensures old(Enabled()) && delivered ==> confirmPending && modalVisible
      ensures old(Enabled()) && !delivered ==> unchanged(this`confirmPending, this`modalVisible)
    {
      if !Enabled() {
        return;
      }
      loading := true;
      smsRequests := smsRequests + [SmsNumber(phoneNumber)];
      if delivered {
        confirmPending := true;
        modalVisible := true;
      }
      loading := false;
    }

    /** `verifyCodeAndRegister`: a code that is not six characters is
        refused before the verifier is asked. A confirmed code (`accepted`)
        leads to the backend registration; an ok answer (`backendOk`) closes
        the dialog. */
    method VerifyAndRegister(accepted: bool, backendOk: bool)
      requires Valid()
      modifies this`verifications, this`registrations, this`modalVisible, this`loading
      ensures Valid()
      ensures |verificationCode| != CodeLength ==> unchanged(this)
      ensures |verificationCode| == CodeLength ==> !loading
      ensures |verificationCode| == CodeLength && confirmPending ==>
                verifications == old(verifications) + [verificationCode]
      ensures !(|verificationCode| == CodeLength && confirmPending) ==> verifications == old(verifications)
      ensures |verificationCode| == CodeLength && confirmPending && accepted ==>
                registrations == old(registrations)
                                 + [RegisterBody(username, email, password, SmsNumber(phoneNumber))]
      ensures !(|verificationCode| == CodeLength && confirmPending && accepted) ==>
                registrations == old(registrations)
      ensures modalVisible == (old(modalVisible) && !(|verificationCode| == CodeLength && confirmPending && accepted && backendOk))
    {
      if |verificationCode| != CodeLength {
        return;
      }
      loading := true;
      if !confirmPending {
        // `confirm.confirm` on null throws before any call.
        loading := false;
        return;
      }
      verifications := verifications + [verificationCode];
      if !accepted {
        loading := false;
        return;
      }
      registrations := registrations + [RegisterBody(username, email, password, SmsNumber(phoneNumber))];
      if backendOk {
        modalVisible := false;
      }
      loading := false;
    }

    /** The dialog's cancel button and its close request: the dialog closes
        and loading ends. */
    method CancelModal()
      requires Valid()
      modifies this`modalVisible, this`loading
      ensures Valid() && !modalVisible && !loading
    {
      modalVisible := false;
      loading := false;
    }
  }
}
