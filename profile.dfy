/** The profile screen: a nine-field form loaded from and saved to the
    stored profile record, its validation and save-enable rules, the
    notification check boxes, avatar removal, discard and logout. */
module Profile {
  import opened Common
  import opened Utils
  import opened SessionStore

  /** Save is disabled when any of the four validated fields fails. */
  function CanSave(p: ProfileData): (enabled: bool)
    ensures enabled <==> ValidateString(p.firstName) && ValidateString(p.lastName)
                         && ValidateEmail(p.profileEmail) && ValidatePhoneNumber(p.phoneNumber)
  {
    var disabled := !ValidateString(p.firstName) || !ValidateString(p.lastName)
                    || !ValidateEmail(p.profileEmail) || !ValidatePhoneNumber(p.phoneNumber);
    !disabled
  }

  /** A field's validation message shows when it is non-empty and invalid. */
  function MessageShown(value: string, valid: bool): (shown: bool)
    ensures shown ==> value != "" && !valid
  {
    !valid && value != ""
  }

  /** A savable form shows no validation message. */
  lemma SavableShowsNoMessage(p: ProfileData)
    requires CanSave(p)
    ensures !MessageShown(p.firstName, ValidateString(p.firstName))
    ensures !MessageShown(p.lastName, ValidateString(p.lastName))
    ensures !MessageShown(p.profileEmail, ValidateEmail(p.profileEmail))
    ensures !MessageShown(p.phoneNumber, ValidatePhoneNumber(p.phoneNumber))
  {
  }

  /** The four notification check boxes. */
  datatype Notification = OrderStatus | PasswordChanges | SpecialOffers | NewsLetters

  function Flag(p: ProfileData, n: Notification): bool {
    match n
    case OrderStatus => p.orderStatus
    case PasswordChanges => p.passwordChanges
    case SpecialOffers => p.specialOffers
    case NewsLetters => p.newsLetters
  }

  /** A check-box press: its own flag flips, every other field is kept. */
  function Flipped(p: ProfileData, n: Notification): (q: ProfileData)
    ensures Flag(q, n) == !Flag(p, n)
    ensures forall m :: m != n ==> Flag(q, m) == Flag(p, m)
    ensures q.profileImage == p.profileImage && q.profileEmail == p.profileEmail && q.firstName == p.firstName
            && q.lastName == p.lastName && q.phoneNumber == p.phoneNumber
  {
    match n
    case OrderStatus => p.(orderStatus := !p.orderStatus)
    case PasswordChanges => p.(passwordChanges := !p.passwordChanges)
    case SpecialOffers => p.(specialOffers := !p.specialOffers)
    case NewsLetters => p.(newsLetters := !p.newsLetters)
  }

  /** Pressing a check box twice restores the form. */
  lemma FlipTwice(p: ProfileData, n: Notification)
    ensures Flipped(Flipped(p, n), n) == p
  {
  }

  /** A check-box press never changes whether Save is enabled. */
  lemma FlipKeepsSavable(p: ProfileData, n: Notification)
    ensures CanSave(Flipped(p, n)) == CanSave(p)
  {
  }

  /** The form `loadProfileData` leaves: the stored record when there is
      one, otherwise the current form. */
  function Loaded(form: ProfileData, entries: map<string, Stored>): (next: ProfileData)
    ensures ProfileDataKey !in entries ==> next == form
  {
    match Lookup(entries, ProfileDataKey)
    case Some(Profile(data)) => data
    case _ => form
  }

  /** The store after the save handler: the form under `profileData`, the
      rest untouched. */
  function SavedEntries(entries: map<string, Stored>, form: ProfileData): (after: map<string, Stored>)
    ensures ProfileDataKey in after && after.Keys == entries.Keys + {ProfileDataKey}
    ensures after[ProfileDataKey] == Profile(form)
    ensures forall k :: k != ProfileDataKey ==> Lookup(after, k) == Lookup(entries, k)
  {
    entries[ProfileDataKey := Profile(form)]
  }

  /** Saving and then loading, from whatever form, yields the saved form. */
  lemma SaveThenLoad(entries: map<string, Stored>, saved: ProfileData, current: ProfileData)
    ensures Loaded(current, SavedEntries(entries, saved)) == saved
  {
  }

  /** Loading twice is loading once. */
  lemma LoadTwice(entries: map<string, Stored>, form: ProfileData)
    ensures Loaded(Loaded(form, entries), entries) == Loaded(form, entries)
  {
  }

  /** A record fresh from onboarding (empty last name and phone) can never
      be saved as it is. */
  lemma EmptyLastNameBlocksSave(p: ProfileData)
    requires p.lastName == "" || p.phoneNumber == ""
    ensures !CanSave(p)
  {
  }

  /** The screen's nine state fields; the first name lives in `profileName`
      and is stored as `firstName`. */
  class ProfileScreen {
    var profileName: string
    var profileEmail: string
    var profileImage: Option<string>
    var lastName: string
    var phoneNumber: string
    var orderStatus: bool
    var passwordChanges: bool
    var specialOffers: bool
    var newsLetters: bool

    /** The form as a profile record. */
    function Form(): ProfileData
      reads this
    {
      ProfileData(profileImage, profileEmail, profileName, lastName, phoneNumber,
                  orderStatus, passwordChanges, specialOffers, newsLetters)
    }

    /** The first render: empty texts, no image, every box unchecked. */
    constructor ()
      ensures Form() == ProfileData(None, "", "", "", "", false, false, false, false)
    {
      profileName, profileEmail, profileImage := "", "", None;
      lastName, phoneNumber := "", "";
      orderStatus, passwordChanges, specialOffers, newsLetters := false, false, false, false;
    }

    /** `loadProfileData`: copies each field of the stored record into the
        form; a missing record changes nothing; a rejected read shows an
        error (`failed`) and changes nothing. */
    method LoadProfileData(store: KeyValueStore) returns (failed: bool)
      modifies this
      ensures failed <==> !store.available
      ensures Form() == if store.available then Loaded(old(Form()), store.entries) else old(Form())
    {
      var stored := store.GetItem(ProfileDataKey);
      match stored
      case Err(_) =>
        failed := true;
      case Ok(value) =>
        failed := false;
        match value
        case Some(Profile(data)) =>
          profileImage := data.profileImage;
          profileName := data.firstName;
          profileEmail := data.profileEmail;
          lastName := data.lastName;
          phoneNumber := data.phoneNumber;
          orderStatus := data.orderStatus;
          passwordChanges := data.passwordChanges;
          specialOffers := data.specialOffers;
          newsLetters := data.newsLetters;
        case _ =>
    }

    /** The confirmed branch of `onSaveChanges`: writes the current form. */
    method OnSaveChanges(store: KeyValueStore) returns (r: Result<(), StoreError>)
      modifies store
      ensures r == if store.available then Ok(()) else Err(Unavailable)
      ensures store.entries == if store.available then SavedEntries(old(store.entries), Form()) else old(store.entries)
    {
      var record := ProfileData(
        profileImage := profileImage,
        profileEmail := profileEmail,
        firstName := profileName,
        lastName := lastName,
        phoneNumber := phoneNumber,
        orderStatus := orderStatus,
        passwordChanges := passwordChanges,
        specialOffers := specialOffers,
        newsLetters := newsLetters);
      r := store.SetItem(ProfileDataKey, Profile(record));
    }

    /** The confirmed branch of `onLogout`: empties the whole store. */
    method OnLogout(store: KeyValueStore) returns (r: Result<(), StoreError>)
      modifies store
      ensures r == if store.available then Ok(()) else Err(Unavailable)
      ensures store.available ==> Lookup(store.entries, LoggedInKey).None?
                                  && Lookup(store.entries, IsFirstTimeKey).None?
                                  && Lookup(store.entries, ProfileDataKey).None?
      ensures store.entries == if store.available then map[] else old(store.entries)
    {
      r := store.Clear();
    }

    /** The confirmed branch of `onDiscardChanges`: a reload from the store. */
    method OnDiscardChanges(store: KeyValueStore) returns (failed: bool)
      modifies this
      ensures failed <==> !store.available
      ensures Form() == if store.available then Loaded(old(Form()), store.entries) else old(Form())
    {
      failed := LoadProfileData(store);
    }

    /** A press on one of the four check boxes. */
    method PressCheckBox(n: Notification)
      modifies this
      ensures Form() == Flipped(old(Form()), n)
    {
      match n
      case OrderStatus => orderStatus := !orderStatus;
      case PasswordChanges => passwordChanges := !passwordChanges;
      case SpecialOffers => specialOffers := !specialOffers;
      case NewsLetters => newsLetters := !newsLetters;
    }

    /** The Remove button: the avatar goes back to none, nothing else changes. */
    method Remove()
      modifies this
      ensures Form() == old(Form()).(profileImage := None)
    {
      profileImage := None;
    }

    /** `changeImage`: `picked` is the image picker's answer (`None` when
        cancelled); a picked image replaces the avatar. */
    method ChangeImage(picked: Option<string>)
      modifies this
      ensures Form() == if picked.Some? then old(Form()).(profileImage := picked) else old(Form())
    {
      if picked.Some? {
        profileImage := picked;
      }
    }
  }
}
