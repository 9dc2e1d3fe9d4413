/** How the screens meet in the shared store: onboarding, the start-up
    check, the profile screen and logout, taken in the order a user goes
    through them. */
module Session {
  import opened Common
  import opened Utils
  import opened SessionStore
  import opened App
  import opened Onboarding
  import opened Profile

  /** The first start-up after onboarding opens the main tabs on Home and
      records the first visit. */
  lemma OnboardingThenStartup(entries: map<string, Stored>, firstName: string, email: string)
    requires IsFirstTimeKey !in entries
    ensures var s := StartupCheck(SubmitEntries(entries, firstName, email), true, true);
            s.loggedIn && s.firstTime
            && InitialRoute(s.loggedIn) == "Main" && TabInitialRoute(s.firstTime) == "Home"
            && Lookup(s.entries, IsFirstTimeKey) == Some(Text("true"))
  {
    var after := SubmitEntries(entries, firstName, email);
    assert Lookup(after, IsFirstTimeKey) == Lookup(entries, IsFirstTimeKey);
  }

  /** After logout the next start-up goes back to onboarding. */
  lemma LogoutThenStartup(fontsLoaded: bool, available: bool)
    ensures var s := StartupCheck(map[], fontsLoaded, available);
            InitialRoute(s.loggedIn) == "OnBoarding" && !s.firstTime && s.entries == map[]
  {
  }

  /** The start-up check never changes what the profile screen loads. */
  lemma StartupKeepsProfile(entries: map<string, Stored>, fontsLoaded: bool, available: bool, form: ProfileData)
    ensures Loaded(form, StartupCheck(entries, fontsLoaded, available).entries) == Loaded(form, entries)
  {
    var s := StartupCheck(entries, fontsLoaded, available);
    assert ProfileDataKey != IsFirstTimeKey;
    assert Lookup(s.entries, ProfileDataKey) == Lookup(entries, ProfileDataKey);
  }

  /** The profile screen opened after onboarding shows the onboarding inputs,
      and its Save stays disabled until a last name and a phone number are
      filled in. */
  lemma OnboardingThenProfile(entries: map<string, Stored>, firstName: string, email: string, form: ProfileData)
    ensures var p := Loaded(form, SubmitEntries(entries, firstName, email));
            p.firstName == firstName && p.profileEmail == email && p.lastName == "" && p.phoneNumber == ""
            && !CanSave(p)
  {
    var p := Loaded(form, SubmitEntries(entries, firstName, email));
    assert p == OnboardedProfile(firstName, email);
    EmptyLastNameBlocksSave(p);
  }
}
