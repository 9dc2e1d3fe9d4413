/** The menu view-model of the Home screen: the category filter vector, the
    rule that turns it into the categories to query, the local-first
    bootstrap, and the re-query that runs whenever the search text or the
    filter changes (but not on the first render). */
module Home {
  import opened Common
  import opened Utils
  import opened Database

  /** The fixed, ordered category list. */
  const Sections: seq<string> := ["starters", "mains", "desserts", "drinks"]

  /** `sections.map(() => false)`: one unselected flag per section. */
  function InitialSelections(): (sel: seq<bool>)
    ensures |sel| == |Sections| == 4
    ensures forall i :: 0 <= i < |sel| ==> !sel[i]
  {
    seq(|Sections|, _ => false)
  }

  /** The vector `handleFiltersChange(index)` installs: entry `index` flipped,
      every other entry and the length kept. */
  function Toggled(sel: seq<bool>, index: nat): (next: seq<bool>)
    requires index < |sel|
    ensures |next| == |sel| && next[index] == !sel[index]
    ensures forall j :: 0 <= j < |sel| && j != index ==> next[j] == sel[j]
  {
    sel[index := !sel[index]]
  }

  /** Pressing the same filter twice restores the vector. */
  lemma ToggleTwice(sel: seq<bool>, index: nat)
    requires index < |sel|
    ensures Toggled(Toggled(sel, index), index) == sel
  {
    var twice := Toggled(Toggled(sel, index), index);
    assert forall j :: 0 <= j < |sel| ==> twice[j] == sel[j];
  }

  /** `filterSelections.every((item) => item === false)`: no flag is set. */
  predicate AllFalse(sel: seq<bool>): (none: bool)
    ensures none <==> true !in sel
  {
    forall i :: 0 <= i < |sel| ==> !sel[i]
  }

  /** `filterSelections[i]`; past the end JavaScript reads `undefined`, which is falsy. */
  predicate Selected(sel: seq<bool>, i: nat) {
    i < |sel| && sel[i]
  }

  /** `sections.filter(...)` from position `from` on, keeping a section when
      `keepAll` holds or its flag is set. */
  function FilterSections(sections: seq<string>, sel: seq<bool>, keepAll: bool, from: nat): (kept: seq<string>)
    requires from <= |sections|
    decreases |sections| - from
    ensures IsSubsequence(kept, sections[from..])
    ensures keepAll ==> kept == sections[from..]
    ensures forall c :: c in kept ==> exists i :: from <= i < |sections| && sections[i] == c && (keepAll || Selected(sel, i))
    ensures forall i :: from <= i < |sections| && (keepAll || Selected(sel, i)) ==> sections[i] in kept
  {
    if from == |sections| then []
    else
      var rest := FilterSections(sections, sel, keepAll, from + 1);
      assert sections[from..][1..] == sections[from + 1..];
      if keepAll || Selected(sel, from) then
        assert ([sections[from]] + rest)[1..] == rest;
        [sections[from]] + rest
      else
        rest
  }

  /** The categories the update effect queries: every section when nothing
      is selected, otherwise exactly the selected sections, in section order. */
  function ActiveCategories(sections: seq<string>, sel: seq<bool>): (active: seq<string>)
    ensures AllFalse(sel) ==> active == sections
    ensures !AllFalse(sel) ==> IsSubsequence(active, sections)
    ensures !AllFalse(sel) ==> forall c :: c in active ==> exists i :: 0 <= i < |sections| && sections[i] == c && Selected(sel, i)
    ensures !AllFalse(sel) ==> forall i :: 0 <= i < |sections| && Selected(sel, i) ==> sections[i] in active
  {
    assert sections[0..] == sections;
    FilterSections(sections, sel, AllFalse(sel), 0)
  }

  /** With one flag per section the active list is never empty, so the
      filter's empty-category rejection cannot be reached from the screen. */
  lemma ActiveCategoriesNonEmpty(sections: seq<string>, sel: seq<bool>)
    requires |sel| == |sections| > 0
    ensures |ActiveCategories(sections, sel)| > 0
  {
    if !AllFalse(sel) {
      var i :| 0 <= i < |sel| && sel[i];
      assert Selected(sel, i);
      assert sections[i] in ActiveCategories(sections, sel);
    }
  }

  /** Selecting a single category queries that category alone. */
  lemma SingleSelection(index: nat)
    requires index < |Sections|
    ensures ActiveCategories(Sections, InitialSelections()[index := true]) == [Sections[index]]
  {
    var sel := InitialSelections()[index := true];
    assert Selected(sel, index) && !AllFalse(sel);
    OnlyOneKept(Sections, sel, index, 0);
  }

  /** With exactly one flag set, the filter keeps exactly that section. */
  lemma {:induction false} OnlyOneKept(sections: seq<string>, sel: seq<bool>, index: nat, from: nat)
    requires from <= |sections| && index < |sections|
    requires forall i: nat :: Selected(sel, i) <==> i == index
    ensures FilterSections(sections, sel, false, from) == if from <= index then [sections[index]] else []
    decreases |sections| - from
  {
    if from < |sections| {
      OnlyOneKept(sections, sel, index, from + 1);
    }
  }

  /** What a successful re-query shows: the items of the matching rows. Each
      is in an active category; for a search text free of `%` and `_`, the
      items shown are exactly those of the stored rows in an active category
      whose name contains the text, ignoring ASCII case. */
  function Requeried(rows: seq<Row>, query: string, sel: seq<bool>): (shown: seq<MenuItem>)
    ensures forall m :: m in shown ==> m.category in ActiveCategories(Sections, sel)
    ensures NoWildcards(query) ==> forall m :: m in shown ==> ContainsIgnoringCase(m.name, query)
    ensures NoWildcards(query) ==>
              forall x :: (x in rows && x.item.category in ActiveCategories(Sections, sel)
                           && ContainsIgnoringCase(x.item.name, query)) ==> x.item in shown
  {
    var pattern, active := LikePattern(query), ActiveCategories(Sections, sel);
    var matching := Matching(rows, pattern, active);
    var shown := Items(matching);
    assert forall m :: m in shown ==> Like(m.name, pattern) && m.category in active by {
      forall m | m in shown
        ensures Like(m.name, pattern) && m.category in active
      {
        var i :| 0 <= i < |shown| && shown[i] == m;
        assert RowMatches(matching[i], pattern, active);
      }
    }
    assert forall x :: x in rows && RowMatches(x, pattern, active) ==> x.item in shown by {
      forall x | x in rows && RowMatches(x, pattern, active)
        ensures x.item in shown
      {
        var i :| 0 <= i < |matching| && matching[i] == x;
        assert shown[i] == x.item;
      }
    }
    shown
  }

  /** The Home screen's state. `updateEffect` is the first-run flag of the
      `useUpdateEffect` hook the screen registers its re-query with. */
  class HomeScreen {
    var menuItems: seq<MenuItem>
    var searchQuery: string
    var filterSelections: seq<bool>
    const updateEffect: UpdateEffect

    ghost predicate Valid()
      reads this
    {
      |filterSelections| == |Sections|
    }

    /** The first render: nothing shown, empty search, nothing selected. */
    constructor ()
      ensures Valid()
      ensures menuItems == [] && searchQuery == "" && filterSelections == InitialSelections()
      ensures fresh(updateEffect) && updateEffect.isInitialMount
    {
      menuItems := [];
      searchQuery := "";
      filterSelections := InitialSelections();
      updateEffect := new UpdateEffect();
    }

    /** `fetchData`, the mount-time bootstrap. `fetched` is what the remote
        feed would answer (`None`: the request or its payload failed);
        `consulted` tells whether it was asked. A non-empty local table is
        shown as it is; an empty one is filled from the feed and the feed's
        items are shown; a failure leaves the shown list as it was. */
    method FetchData(db: MenuTable, fetched: Option<seq<MenuItem>>) returns (consulted: bool)
      requires db.Valid()
      modifies this`menuItems, db
      ensures db.Valid() && db.created
      ensures consulted <==> old(db.rows) == []
      ensures !consulted ==> menuItems == Items(old(db.rows)) && db.rows == old(db.rows)
      ensures consulted && fetched.Some? ==> menuItems == fetched.value && Items(db.rows) == fetched.value
      ensures consulted && fetched.None? ==> menuItems == old(menuItems) && db.rows == []
    {
      db.CreateTable();
      var local := db.GetMenuItems();
      consulted := false;
      match local
      case Ok(items) =>
        if |items| == 0 {
          consulted := true;
          match fetched
          case Some(fetchedItems) =>
            var _ := db.SaveMenuItems(fetchedItems);
            menuItems := fetchedItems;
          case None =>
        } else {
          menuItems := Items(items);
        }
      case Err(_) =>
    }

    /** The effect passed to `useUpdateEffect`: skipped on the first run;
        afterwards it queries the table with the search text and the active
        categories and shows the result, keeping the shown list when the
        query fails. */
    method RunUpdateEffect(db: MenuTable) returns (queried: bool)
      requires Valid()
      modifies this`menuItems, updateEffect
      ensures queried <==> !old(updateEffect.isInitialMount)
      ensures !updateEffect.isInitialMount
      ensures menuItems == if queried && db.created then Requeried(db.rows, searchQuery, filterSelections) else old(menuItems)
    {
      queried := updateEffect.Invoke();
      if queried {
        var active := ActiveCategories(Sections, filterSelections);
        ActiveCategoriesNonEmpty(Sections, filterSelections);
        var result := db.FilterByQueryAndCategories(searchQuery, active);
        match result
        case Ok(rows) => menuItems := Items(rows);
        case Err(_) =>
      }
    }

    /** Mounting: the bootstrap, then the update effect's first (skipped) run. */
    method Mount(db: MenuTable, fetched: Option<seq<MenuItem>>) returns (consulted: bool)
      requires Valid() && db.Valid() && updateEffect.isInitialMount
      modifies this`menuItems, updateEffect, db
      ensures db.Valid() && db.created && !updateEffect.isInitialMount
      ensures consulted <==> old(db.rows) == []
      ensures !consulted ==> menuItems == Items(old(db.rows)) && db.rows == old(db.rows)
      ensures consulted && fetched.Some? ==> menuItems == fetched.value && Items(db.rows) == fetched.value
      ensures consulted && fetched.None? ==> menuItems == old(menuItems) && db.rows == []
    {
      consulted := FetchData(db, fetched);
      var _ := RunUpdateEffect(db);
    }

    /** `handleFiltersChange(index)`: copy the vector, flip one cell, install
        the copy; the new vector re-runs the update effect. */
    method HandleFiltersChange(index: nat, db: MenuTable)
      requires Valid() && index < |filterSelections|
      modifies this`filterSelections, this`menuItems, updateEffect
      ensures Valid() && filterSelections == Toggled(old(filterSelections), index)
      ensures !updateEffect.isInitialMount
      ensures menuItems == if !old(updateEffect.isInitialMount) && db.created
                           then Requeried(db.rows, searchQuery, filterSelections) else old(menuItems)
    {
      var arrayCopy := new bool[|filterSelections|](i requires 0 <= i < |filterSelections| reads this => filterSelections[i]);
      arrayCopy[index] := !filterSelections[index];
      filterSelections := arrayCopy[..];
      var _ := RunUpdateEffect(db);
    }

    /** `handleSearchChange(text)`: the search text is set at once (the
        debounced second write stores the same text and changes nothing);
        the effect re-runs only when the text differs from the current one. */
    method HandleSearchChange(text: string, db: MenuTable)
      requires Valid()
      modifies this`searchQuery, this`menuItems, updateEffect
      ensures Valid() && searchQuery == text
      ensures text == old(searchQuery) ==> menuItems == old(menuItems) && updateEffect.isInitialMount == old(updateEffect.isInitialMount)
      ensures text != old(searchQuery) ==> menuItems == if !old(updateEffect.isInitialMount) && db.created
                                                      then Requeried(db.rows, text, filterSelections) else old(menuItems)
    {
      if text != searchQuery {
        searchQuery := text;
        var _ := RunUpdateEffect(db);
      }
    }
  }

  /** Two mounts against the same table: once the feed has filled the table
      with at least one item, the second mount shows the stored rows and does
      not ask the feed again. (An empty feed leaves the table empty, so the
      next mount asks again.) */
  method MountTwice(db: MenuTable, fetched: Option<seq<MenuItem>>, again: Option<seq<MenuItem>>)
    returns (first: bool, second: bool)
    requires db.Valid()
    modifies db
    ensures second ==> old(db.rows) == [] && (fetched.None? || fetched.value == [])
  {
    var screen := new HomeScreen();
    first := screen.Mount(db, fetched);
    var screen2 := new HomeScreen();
    second := screen2.Mount(db, again);
  }
}
