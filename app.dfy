/** The app shell's start-up check: after the splash delay and the font
    load it reads the session keys, raises the logged-in and first-time
    flags, records that the first-time visit has happened, and picks the
    two initial routes. */
module App {
  import opened Common
  import opened SessionStore

  /** What the start-up check leaves behind: the two flags it raises and the
      store contents afterwards. */
  datatype Startup = Startup(loggedIn: bool, firstTime: bool, entries: map<string, Stored>)

  /** `checkIsLoggedIn` on a store holding `entries`. `fontsLoaded` is false
      when the font load rejects, `available` is false when the storage
      rejects; either failure is caught and leaves both flags down. The
      logged-in flag follows the presence of `LoggedIn`; the first-time flag
      is raised, and `IsFirstTime` recorded, only for a logged-in session
      that has not recorded it yet. No other key is ever written. */
  function StartupCheck(entries: map<string, Stored>, fontsLoaded: bool, available: bool): (s: Startup)
    ensures s.loggedIn <==> fontsLoaded && available && LoggedInKey in entries
    ensures s.firstTime <==> s.loggedIn && IsFirstTimeKey !in entries
    ensures s.firstTime ==> s.entries == entries[IsFirstTimeKey := Text("true")]
    ensures !s.firstTime ==> s.entries == entries
    ensures forall k :: k != IsFirstTimeKey ==> Lookup(s.entries, k) == Lookup(entries, k)
  {
    if !fontsLoaded || !available then Startup(false, false, entries)
    else if LoggedInKey !in entries then Startup(false, false, entries)
    else if IsFirstTimeKey in entries then Startup(true, false, entries)
    else Startup(true, true, entries[IsFirstTimeKey := Text("true")])
  }

  /** Two start-ups in a row, each with its own font and storage outcome.
      The first-time flag is raised at most once: `IsFirstTime` is written at
      most once per store. After a start-up that logged in, the next one
      writes nothing; with the same outcomes it repeats the first one's flags. */
  lemma StartupTwice(entries: map<string, Stored>, fonts1: bool, available1: bool, fonts2: bool, available2: bool)
    ensures var first := StartupCheck(entries, fonts1, available1);
            var second := StartupCheck(first.entries, fonts2, available2);
            && !(first.firstTime && second.firstTime)
            && (first.loggedIn ==> !second.firstTime && second.entries == first.entries)
            && (fonts1 == fonts2 && available1 == available2 ==>
                  !second.firstTime && second.entries == first.entries && second.loggedIn == first.loggedIn)
  {
  }

  /** `initialRoute`: the main tabs for a logged-in session, onboarding otherwise. */
  function InitialRoute(isLoggedIn: bool): (route: string)
    ensures route == "Main" <==> isLoggedIn
    ensures route == "OnBoarding" <==> !isLoggedIn
  {
    if isLoggedIn then "Main" else "OnBoarding"
  }

  /** `tabInitalRoute`: the Home tab on the first visit, the Profile tab after. */
  function TabInitialRoute(isFirstTime: bool): (route: string)
    ensures route == "Home" <==> isFirstTime
    ensures route == "Profile" <==> !isFirstTime
  {
    if isFirstTime then "Home" else "Profile"
  }

  /** A start-up that opens the Home tab first always opens the main tabs:
      the first-time flag is never raised without the logged-in flag. */
  lemma HomeTabOnlyWhenLoggedIn(entries: map<string, Stored>, fontsLoaded: bool, available: bool)
    ensures var s := StartupCheck(entries, fontsLoaded, available);
            TabInitialRoute(s.firstTime) == "Home" ==> InitialRoute(s.loggedIn) == "Main"
  {
  }

  /** The shell's three flags. */
  class AppState {
    var isLoading: bool
    var isLoggedIn: bool
    var isFirstTime: bool

    constructor ()
      ensures isLoading && !isLoggedIn && !isFirstTime
    {
      isLoading := true;
      isLoggedIn := false;
      isFirstTime := false;
    }

    /** `checkIsLoggedIn`, step by step against the store; the splash delay
        is not modelled and the font load is the `fontsLoaded` answer. */
    method CheckIsLoggedIn(store: KeyValueStore, fontsLoaded: bool)
      modifies this, store
      ensures var s := StartupCheck(old(store.entries), fontsLoaded, store.available);
              !isLoading && store.entries == s.entries
              && isLoggedIn == (old(isLoggedIn) || s.loggedIn)
              && isFirstTime == (old(isFirstTime) || s.firstTime)
    {
      if fontsLoaded {
        var loggedIn := store.GetItem(LoggedInKey);
        if loggedIn.Ok? && loggedIn.value.Some? {
          isLoggedIn := true;
          var firstTime := store.GetItem(IsFirstTimeKey);
          if firstTime.Ok? && firstTime.value.None? {
            isFirstTime := true;
            var _ := store.SetItem(IsFirstTimeKey, Text("true"));
          }
        }
      }
      isLoading := false;
    }
  }

  /** A cold start: fresh flags, the check, then the two routes handed to
      the navigator. */
  method Launch(store: KeyValueStore, fontsLoaded: bool) returns (initialRoute: string, tabRoute: string)
    modifies store
    ensures var s := StartupCheck(old(store.entries), fontsLoaded, store.available);
            store.entries == s.entries
            && initialRoute == InitialRoute(s.loggedIn) && tabRoute == TabInitialRoute(s.firstTime)
  {
    var app := new AppState();
    app.CheckIsLoggedIn(store, fontsLoaded);
    initialRoute := InitialRoute(app.isLoggedIn);
    tabRoute := TabInitialRoute(app.isFirstTime);
  }
}
