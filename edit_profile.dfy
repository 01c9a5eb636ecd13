/** The profile editor (PhotoAppFrontend/app/edit-profile.js): it loads the
    user's profile as a baseline, tracks whether the fields differ from it,
    and posts the multipart update form. The fetched profile and the server's
    answer arrive as method parameters. */
module EditProfile {
  import opened Wrappers
  import opened Strings
  import opened Patterns
  import opened ClientForms

  const CountryPrefix := "+90"

  /** What /get-user answers with, as far as the screen reads it. */
  datatype Profile = Profile(username: string, email: string, phone: Option<string>, profileImage: Option<string>)

  /** `initialData` once loaded. */
  datatype Baseline = Baseline(username: string, email: string, phone: string, profilePic: Option<string>)

  /** The `profile_image` part: uri, name and type. */
  datatype ImagePart = ImagePart(uri: string, name: string, mimeType: string)

  /** The form posted to /update-profile. */
  datatype ProfileForm = ProfileForm(userId: string, username: string, email: string, phoneNumber: string,
                                     image: Option<ImagePart>)

  /** The phone text of the form: a leading "+90" is dropped, nothing else. */
  function LocalPhone(stored: string): (r: string)
    ensures StartsWith(stored, CountryPrefix) ==> CountryPrefix + r == stored
    ensures !StartsWith(stored, CountryPrefix) ==> r == stored
  {
    if StartsWith(stored, CountryPrefix) then
      assert stored == stored[..3] + stored[3..];
      stored[3..]
    else stored
  }

  /** The number the form submits for the phone text. */
  function SubmittedPhone(phoneRaw: string): (r: string)
    ensures StartsWith(r, CountryPrefix) && r[3..] == phoneRaw
  {
    CountryPrefix + phoneRaw
  }

  /** A stored "+90..." number comes back unchanged from load and save; a
      number stored without the prefix gains it. */
  lemma PhoneRoundTrip(stored: string)
    ensures StartsWith(stored, CountryPrefix) ==> SubmittedPhone(LocalPhone(stored)) == stored
    ensures !StartsWith(stored, CountryPrefix) ==> SubmittedPhone(LocalPhone(stored)) == CountryPrefix + stored
  {
  }

  /** The picture url shown for a stored image name (null for none). */
  function PictureUrl(apiUrl: string, image: Option<string>): (r: Option<string>)
    ensures r.Some? <==> image.Some? && image.value != ""
    ensures r.Some? ==> r.value == apiUrl + "/uploads/" + image.value
    ensures r.Some? ==> StartsWith(r.value, apiUrl) && EndsWith(r.value, "/uploads/" + image.value)
  {
    if image.Some? && image.value != "" then Some(apiUrl + "/uploads/" + image.value) else None
  }

  /** `initialData.profilePic`; it is `undefined`, unequal to any picture,
      until the profile has loaded. */
  predicate SameAsBaselinePicture(initial: Option<Baseline>, pic: Option<string>) {
    initial.Some? && initial.value.profilePic == pic
  }

  /** The image part is attached only for a set picture that differs from
      the baseline and is not an "http" url (a new local file). */
  function ImagePartFor(initial: Option<Baseline>, pic: Option<string>): (r: Option<ImagePart>)
    ensures r.Some? <==>
              pic.Some? && pic.value != "" && !SameAsBaselinePicture(initial, pic) && !StartsWith(pic.value, "http")
    ensures r.Some? ==> r.value.uri == pic.value && r.value.name == FileNameOf(pic.value)
                        && r.value.mimeType == ImageMimeType(FileNameOf(pic.value))
  {
    if pic.Some? && pic.value != "" && !SameAsBaselinePicture(initial, pic) && !StartsWith(pic.value, "http") then
      Some(ImagePart(pic.value, FileNameOf(pic.value), ImageMimeType(FileNameOf(pic.value))))
    else None
  }

  /** A picture shown from the server is never posted back: with an
      "http..." API address its url starts with "http", so no image part is
      built for it, whatever the baseline. */
  lemma ServerPictureNotResent(initial: Option<Baseline>, apiUrl: string, image: Option<string>)
    requires StartsWith(apiUrl, "http")
    ensures ImagePartFor(initial, PictureUrl(apiUrl, image)).None?
  {
    var url := PictureUrl(apiUrl, image);
    if url.Some? {
      assert url.value[..|apiUrl|] == apiUrl;
      assert url.value[..4] == apiUrl[..4];
    }
  }

  class EditProfileScreen {
    var initial: Option<Baseline>
    var profilePic: Option<string>
    var username: string
    var email: string
    var phoneRaw: string
    var loading: bool
    var saving: bool
    var isEmailValid: bool
    /** The update forms posted so far, oldest first. */
    var sent: seq<ProfileForm>
    const userId: string
    const apiUrl: string

    /** No save is in flight between handlers, and the e-mail flag describes
        the current e-mail text, except that a loaded profile's e-mail is
        trusted as it came, whatever its form, until it is edited. */
    ghost predicate Valid()
      reads this
    {
      && !saving
      && (|| isEmailValid == EmailFlag(email)
          || (isEmailValid && initial.Some? && email == initial.value.email))
    }

    constructor (userId: string, apiUrl: string)
      ensures Valid()
      ensures this.userId == userId && this.apiUrl == apiUrl
      ensures initial.None? && profilePic.None? && username == "" && email == "" && phoneRaw == ""
      ensures loading && !saving && isEmailValid && sent == []
    {
      this.userId := userId;
      this.apiUrl := apiUrl;
      initial := None;
      profilePic := None;
      username := "";
      email := "";
      phoneRaw := "";
      loading := true;
      saving := false;
      isEmailValid := true;
      sent := [];
    }

    /** `hasChanges`. */
    predicate HasChanges()
      reads this
    {
      && !loading
      && (|| initial.None?
          || username != initial.value.username || email != initial.value.email
          || phoneRaw != initial.value.phone || profilePic != initial.value.profilePic)
    }

    /** `isSaveActive`. */
    predicate SaveActive()
      reads this
    {
      HasChanges() && isEmailValid && |email| > 0 && |username| > 0
    }

    /** The load effect: on an ok response the fields and the baseline take
        the profile's values, with "+90" dropped from the phone; loading
        ends either way. */
    method Load(response: Option<Profile>)
      requires Valid()
      modifies this`initial, this`username, this`email, this`phoneRaw, this`profilePic, this`isEmailValid, this`loading
      ensures Valid() && !loading
      ensures response.None? ==> unchanged(this`initial, this`username, this`email, this`phoneRaw, this`profilePic, this`isEmailValid)
      ensures response.Some? ==>
                var p := response.value;
                && username == p.username && email == p.email
                && phoneRaw == LocalPhone(p.phone.GetOr(""))
                && profilePic == PictureUrl(apiUrl, p.profileImage)
                && initial == Some(Baseline(username, email, phoneRaw, profilePic))
                && isEmailValid
      ensures response.Some? ==> !HasChanges()
    {
      if response.Some? {
        var p := response.value;
        var rawPhone := LocalPhone(p.phone.GetOr(""));
        var picUrl := PictureUrl(apiUrl, p.profileImage);
        initial := Some(Baseline(p.username, p.email, rawPhone, picUrl));
        username := p.username;
        email := p.email;
        phoneRaw := rawPhone;
        profilePic := picUrl;
        isEmailValid := true;
      }
      loading := false;
    }

    /** The username field. */
    method SetUsername(text: string)
      requires Valid()
      modifies this`username
      ensures Valid() && username == text
    {
      username := text;
    }

    /** `handleEmailChange`: the text and its flag. */
    method HandleEmailChange(text: string)
      requires Valid()
      modifies this`email, this`isEmailValid
      ensures Valid() && email == text
      ensures isEmailValid <==> text == "" || MatchesEmail(text)
    {
      email := text;
      isEmailValid := |text| == 0 || MatchesEmail(text);
    }

    /** `openCamera` / `openGallery`: a granted, not cancelled pick replaces
        the picture. */
    method PickPicture(granted: bool, picked: Option<string>)
      requires Valid()
      modifies this`profilePic
      ensures Valid()
      ensures profilePic == if granted && picked.Some? then picked else old(profilePic)
    {
      if granted && picked.Some? {
        profilePic := picked;
      }
    }

    /** `handleSave`: nothing unless save is active; otherwise one form with
        the "+90" phone and the image part when due. An ok answer makes the
        current values the baseline; any other outcome leaves it. */
    method HandleSave(responseOk: bool)
      requires Valid()
      modifies this`sent, this`initial, this`saving
      ensures Valid() && !saving
      ensures !old(SaveActive()) ==> unchanged(this)
      ensures old(SaveActive()) ==>
                sent == old(sent) + [ProfileForm(userId, username, email, SubmittedPhone(phoneRaw),
                                                 ImagePartFor(old(initial), profilePic))]
      ensures old(SaveActive()) && responseOk ==>
                initial == Some(Baseline(username, email, phoneRaw, profilePic)) && !HasChanges()
      ensures !responseOk ==> initial == old(initial)
    {
      if !SaveActive() {
        return;
      }
      saving := true;
      var form := ProfileForm(userId, username, email, SubmittedPhone(phoneRaw), ImagePartFor(initial, profilePic));
      sent := sent + [form];
      if responseOk {
        initial := Some(Baseline(username, email, phoneRaw, profilePic));
      }
      saving := false;
    }
  }

  /** The save gate: an active save has a name, a changed field and an
      e-mail that is either well formed or, unedited, the one the profile
      loaded with; a well-formed e-mail with a name and a change is always
      enough. */
  lemma SaveGate(s: EditProfileScreen)
    requires s.Valid()
    ensures s.SaveActive() ==>
              && |s.username| > 0 && |s.email| > 0 && s.HasChanges()
              && (MatchesEmail(s.email) || (s.initial.Some? && s.email == s.initial.value.email))
    ensures s.HasChanges() && |s.username| > 0 && |s.email| > 0 && MatchesEmail(s.email) ==> s.SaveActive()
  {
  }

  /** An edited e-mail must be well formed for the save to be active. */
  lemma EditedEmailMustMatch(s: EditProfileScreen)
    requires s.Valid() && s.initial.Some? && s.email != s.initial.value.email
    ensures s.SaveActive() ==> MatchesEmail(s.email)
  {
  }
}
