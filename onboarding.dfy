/** The onboarding form: two inputs, their validation messages, the rule
    that enables the Next button, and the two store writes Next performs. */
module Onboarding {
  import opened Common
  import opened Utils
  import opened SessionStore

  /** Next is disabled when `!isEmailValid || !isFirstNameValid`. */
  function SubmitEnabled(firstName: string, email: string): (enabled: bool)
    ensures enabled <==> ValidateEmail(email) && ValidateString(firstName)
  {
    var disabled := !ValidateEmail(email) || !ValidateString(firstName);
    !disabled
  }

  /** Whether the first-name message shows: the input is non-empty and invalid. */
  function FirstNameMessageShown(firstName: string): (shown: bool)
    ensures shown ==> firstName != ""
    ensures shown <==> firstName != "" && exists i :: 0 <= i < |firstName| && !InClass(firstName[i], Letter)
  {
    !ValidateString(firstName) && firstName != ""
  }

  /** Whether the email message shows: the input is non-empty and invalid. */
  function EmailMessageShown(email: string): (shown: bool)
    ensures shown <==> email != "" && !EmailPattern(email)
  {
    !ValidateEmail(email) && email != ""
  }

  /** A disabled Next button over two filled-in inputs always comes with at
      least one message saying why; over an empty input it comes with none
      for that input. */
  lemma DisabledIsExplained(firstName: string, email: string)
    requires !SubmitEnabled(firstName, email)
    ensures firstName != "" && email != "" ==> FirstNameMessageShown(firstName) || EmailMessageShown(email)
    ensures firstName == "" ==> !FirstNameMessageShown(firstName)
    ensures email == "" ==> !EmailMessageShown(email)
  {
  }

  /** The profile record `onClicked` stores: the two inputs, an empty image,
      last name and phone, and every notification off. The record is not
      complete: its last name and phone fail their validators. */
  function OnboardedProfile(firstName: string, email: string): (p: ProfileData)
    ensures p.firstName == firstName && p.profileEmail == email
    ensures !ValidateString(p.lastName) && !ValidatePhoneNumber(p.phoneNumber)
  {
    ProfileData(
      profileImage := Some(""),
      profileEmail := email,
      firstName := firstName,
      lastName := "",
      phoneNumber := "",
      orderStatus := false,
      passwordChanges := false,
      specialOffers := false,
      newsLetters := false)
  }

  /** The store after a successful `onClicked`: `LoggedIn` is "true", the
      profile record holds the inputs, and nothing else changes. */
  function SubmitEntries(entries: map<string, Stored>, firstName: string, email: string): (after: map<string, Stored>)
    ensures after.Keys == entries.Keys + {LoggedInKey, ProfileDataKey}
    ensures Lookup(after, LoggedInKey) == Some(Text("true"))
    ensures after[ProfileDataKey].Profile?
    ensures var p := after[ProfileDataKey].data;
            p.firstName == firstName && p.profileEmail == email
            && p.profileImage == Some("") && p.lastName == "" && p.phoneNumber == ""
            && !p.orderStatus && !p.passwordChanges && !p.specialOffers && !p.newsLetters
    ensures forall k :: k != LoggedInKey && k != ProfileDataKey ==> Lookup(after, k) == Lookup(entries, k)
  {
    entries[LoggedInKey := Text("true")][ProfileDataKey := Profile(OnboardedProfile(firstName, email))]
  }

  class OnboardingScreen {
    var firstName: string
    var email: string

    constructor ()
      ensures firstName == "" && email == ""
    {
      firstName := "";
      email := "";
    }

    /** `onClicked`: two writes in order; a rejected write is not caught and
        ends the handler. */
    method OnClicked(store: KeyValueStore) returns (r: Result<(), StoreError>)
      modifies store
      ensures r == if store.available then Ok(()) else Err(Unavailable)
      ensures store.entries == if store.available then SubmitEntries(old(store.entries), firstName, email)
                               else old(store.entries)
    {
      r := store.SetItem(LoggedInKey, Text("true"));
      if r.Err? {
        return;
      }
      var profileData := OnboardedProfile(firstName, email);
      r := store.SetItem(ProfileDataKey, Profile(profileData));
    }

    /** A press on Next: it reaches `onClicked` only while the button is enabled. */
    method PressNext(store: KeyValueStore) returns (submitted: bool)
      modifies store
      ensures submitted <==> SubmitEnabled(firstName, email) && store.available
      ensures !SubmitEnabled(firstName, email) ==> store.entries == old(store.entries)
      ensures submitted ==> store.entries == SubmitEntries(old(store.entries), firstName, email)
    {
      submitted := false;
      if SubmitEnabled(firstName, email) {
        var r := OnClicked(store);
        submitted := r.Ok?;
      }
    }
  }
}
