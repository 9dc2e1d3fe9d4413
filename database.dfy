/** The on-device menu cache: one SQLite table `menu (id integer primary key,
    name, price, description, image, category)` reached through a single
    process-wide handle. The table is a `MenuTable` object whose rows are a
    sequence in storage (rowid) order; SQL text is built as the app builds it,
    and the two SQLite behaviours the app relies on are written out: rowid
    assignment and the `LIKE` operator. */
module Database {
  import opened Common

  /** A menu entry as the remote feed delivers it. `price` is kept as an
      opaque number; no rounding is modelled. */
  datatype MenuItem = MenuItem(name: string, price: real, description: string, image: string, category: string)

  /** A stored row: the item and the rowid SQLite gave it. */
  datatype Row = Row(id: int, item: MenuItem)

  datatype DbError =
    | NoSuchTable   // the statement names a table that was never created
    | SyntaxError   // the statement text cannot be prepared

  /** The items of some rows, id column dropped. */
  function Items(rows: seq<Row>): (items: seq<MenuItem>)
    ensures |items| == |rows| && forall i :: 0 <= i < |rows| ==> items[i] == rows[i].item
  {
    seq(|rows|, i requires 0 <= i < |rows| => rows[i].item)
  }

  // ---------------------------------------------------------------------
  // Row ids
  // ---------------------------------------------------------------------

  /** The largest id in use, 0 for no rows. */
  function MaxId(rows: seq<Row>): (m: int)
    ensures m >= 0 && forall i :: 0 <= i < |rows| ==> rows[i].id <= m
    ensures m == 0 || exists i :: 0 <= i < |rows| && rows[i].id == m
  {
    if rows == [] then 0
    else
      var last := rows[|rows| - 1].id;
      var m := MaxId(rows[..|rows| - 1]);
      if last > m then last else m
  }

  /** Ids grow strictly in storage order; in particular no two rows share one. */
  predicate IdsAscending(rows: seq<Row>) {
    forall i, j :: 0 <= i < j < |rows| ==> rows[i].id < rows[j].id
  }

  /** The rows a batch insert of `items` appends when the first gets rowid `start`. */
  function Numbered(items: seq<MenuItem>, start: int): (rows: seq<Row>)
    ensures |rows| == |items|
    ensures forall i :: 0 <= i < |rows| ==> rows[i] == Row(start + i, items[i])
  {
    seq(|items|, i requires 0 <= i < |items| => Row(start + i, items[i]))
  }

  /** The appended rows carry the items in order, under ascending (so distinct) ids. */
  lemma NumberedShape(items: seq<MenuItem>, start: int)
    ensures Items(Numbered(items, start)) == items
    ensures IdsAscending(Numbered(items, start))
  {
  }

  /** Appending a row whose id exceeds every id in use keeps ids ascending
      and makes it the largest. */
  lemma AppendRow(rows: seq<Row>, row: Row)
    requires IdsAscending(rows) && row.id > MaxId(rows)
    ensures IdsAscending(rows + [row]) && MaxId(rows + [row]) == row.id
  {
    assert (rows + [row])[..|rows|] == rows;
  }

  /** One more insert extends the appended rows by the next item under the next id. */
  lemma NumberedStep(before: seq<Row>, items: seq<MenuItem>, i: nat, start: int)
    requires i < |items|
    ensures before + Numbered(items[..i + 1], start) == before + Numbered(items[..i], start) + [Row(start + i, items[i])]
  {
    assert Numbered(items[..i + 1], start) == Numbered(items[..i], start) + [Row(start + i, items[i])];
  }

  lemma ItemsAppend(a: seq<Row>, b: seq<Row>)
    ensures Items(a + b) == Items(a) + Items(b)
  {
  }

  // ---------------------------------------------------------------------
  // SQLite's LIKE
  // ---------------------------------------------------------------------

  /** SQLite's default case folding: ASCII letters only. */
  function Lower(c: char): char {
    if 'A' <= c <= 'Z' then (c as int + 32) as char else c
  }

  predicate SameIgnoringCase(a: char, b: char) {
    Lower(a) == Lower(b)
  }

  /** `s LIKE p` with SQLite's defaults: `%` matches any run of characters,
      `_` any single character, every other character itself up to ASCII case;
      there is no escape character. */
  function Like(s: string, p: string): (r: bool)
    decreases |p|, |s|
    ensures r && '%' !in p ==> |s| == |p|
  {
    if p == [] then s == []
    else if p[0] == '%' then Like(s, p[1..]) || (s != [] && Like(s[1..], p))
    else s != [] && (p[0] == '_' || SameIgnoringCase(s[0], p[0])) && Like(s[1..], p[1..])
  }

  /** The pattern the filter binds for a search text: `%query%`. For a
      search text free of `%` and `_` it matches exactly the names that
      contain the text, ignoring ASCII case. */
  function LikePattern(query: string): (p: string)
    ensures NoWildcards(query) ==> forall s :: Like(s, p) <==> ContainsIgnoringCase(s, query)
  {
    var p := "%" + query + "%";
    assert NoWildcards(query) ==> forall s :: Like(s, p) <==> ContainsIgnoringCase(s, query) by {
      if NoWildcards(query) {
        forall s
          ensures Like(s, p) <==> ContainsIgnoringCase(s, query)
        {
          LikeIsSubstring(s, query);
        }
      }
    }
    p
  }

  predicate NoWildcards(q: string) {
    '%' !in q && '_' !in q
  }

  /** `q` occurs in `s` at position `i`, letters compared without case. */
  ghost predicate OccursAt(s: string, q: string, i: int) {
    0 <= i && i + |q| <= |s| && forall k :: 0 <= k < |q| ==> SameIgnoringCase(s[i + k], q[k])
  }

  ghost predicate ContainsIgnoringCase(s: string, q: string) {
    exists i :: OccursAt(s, q, i)
  }

  /** A lone `%` matches everything. */
  lemma {:induction false} LikeAnything(s: string)
    ensures Like(s, "%")
  {
    assert "%"[1..] == [];
    if s != [] {
      LikeAnything(s[1..]);
    }
  }

  /** `q%` with a wildcard-free `q` matches exactly the texts that start with `q`. */
  lemma {:induction false} LikePrefix(s: string, q: string)
    requires NoWildcards(q)
    ensures Like(s, q + "%") <==> OccursAt(s, q, 0)
  {
    if q == [] {
      assert q + "%" == "%";
      LikeAnything(s);
    } else {
      var p := q + "%";
      assert p[0] == q[0] && p[1..] == q[1..] + "%";
      assert q[0] != '%' && q[0] != '_';
      if s != [] {
        LikePrefix(s[1..], q[1..]);
        if OccursAt(s, q, 0) {
          assert SameIgnoringCase(s[0], q[0]);
          forall k | 0 <= k < |q[1..]|
            ensures SameIgnoringCase(s[1..][k], q[1..][k])
          {
            assert SameIgnoringCase(s[k + 1], q[k + 1]);
          }
        }
        if Like(s, p) {
          assert OccursAt(s[1..], q[1..], 0);
          forall k | 0 <= k < |q|
            ensures SameIgnoringCase(s[k], q[k])
          {
            if k > 0 {
              assert s[k] == s[1..][k - 1] && q[k] == q[1..][k - 1];
            }
          }
        }
      }
    }
  }

  /** A leading `%` lets the rest of the pattern match at any suffix. */
  lemma {:induction false} LikeLeadingPercent(s: string, r: string)
    ensures Like(s, "%" + r) <==> exists i :: 0 <= i <= |s| && Like(s[i..], r)
  {
    var p := "%" + r;
    assert p[0] == '%' && p[1..] == r;
    if s == [] {
      assert s[0..] == s;
    } else {
      LikeLeadingPercent(s[1..], r);
      if Like(s, p) {
        if Like(s, r) {
          assert s[0..] == s;
        } else {
          var i :| 0 <= i <= |s[1..]| && Like(s[1..][i..], r);
          assert s[1..][i..] == s[i + 1..];
        }
      }
      if exists i :: 0 <= i <= |s| && Like(s[i..], r) {
        var i :| 0 <= i <= |s| && Like(s[i..], r);
        if i == 0 {
          assert s[0..] == s;
        } else {
          assert s[1..][i - 1..] == s[i..];
        }
      }
    }
  }

  /** With a search text free of `%` and `_`, the filter's `name LIKE
      '%query%'` is a case-insensitive (ASCII) substring test. */
  lemma LikeIsSubstring(s: string, q: string)
    requires NoWildcards(q)
    ensures Like(s, "%" + q + "%") <==> ContainsIgnoringCase(s, q)
  {
    assert "%" + q + "%" == "%" + (q + "%");
    LikeLeadingPercent(s, q + "%");
    if Like(s, "%" + q + "%") {
      var i :| 0 <= i <= |s| && Like(s[i..], q + "%");
      LikePrefix(s[i..], q);
      assert OccursAt(s, q, i);
    }
    if ContainsIgnoringCase(s, q) {
      var i :| OccursAt(s, q, i);
      LikePrefix(s[i..], q);
      assert OccursAt(s[i..], q, 0);
    }
  }

  // ---------------------------------------------------------------------
  // The filter query
  // ---------------------------------------------------------------------

  /** The number of times `c` occurs in `s`. */
  function Occurrences(s: string, c: char): nat {
    if s == [] then 0 else (if s[0] == c then 1 else 0) + Occurrences(s[1..], c)
  }

  lemma {:induction false} OccurrencesAppend(a: string, b: string, c: char)
    ensures Occurrences(a + b, c) == Occurrences(a, c) + Occurrences(b, c)
  {
    if a != [] {
      assert (a + b)[1..] == a[1..] + b;
      OccurrencesAppend(a[1..], b, c);
    } else {
      assert a + b == b;
    }
  }

  lemma {:induction false} OccurrencesAbsent(s: string, c: char)
    requires c !in s
    ensures Occurrences(s, c) == 0
  {
    if s != [] {
      OccurrencesAbsent(s[1..], c);
    }
  }

  const Separator := " OR category = "
  const SelectHead := "select * from menu where name like "
  const AndCategory := " and (category = "

  /** `categories.map(() => '?').join(' OR category = ')` for `n` categories:
      one placeholder per category, and the empty text for none. */
  function Placeholders(n: nat): (r: string)
    ensures r == [] <==> n == 0
    ensures Occurrences(r, '?') == n
  {
    if n == 0 then ""
    else if n == 1 then "?"
    else
      var rest := Placeholders(n - 1);
      OccurrencesAbsent(Separator, '?');
      OccurrencesAppend("?", Separator, '?');
      OccurrencesAppend("?" + Separator, rest, '?');
      "?" + Separator + rest
  }

  /** Only the placeholders of `list` and the one between `head` and `mid` count. */
  lemma StatementPlaceholders(head: string, mid: string, list: string)
    requires '?' !in head && '?' !in mid
    ensures Occurrences(head + "?" + mid + list + ")", '?') == 1 + Occurrences(list, '?')
  {
    OccurrencesAbsent(head, '?');
    OccurrencesAbsent(mid, '?');
    OccurrencesAbsent(")", '?');
    OccurrencesAppend(head, "?", '?');
    OccurrencesAppend(head + "?", mid, '?');
    OccurrencesAppend(head + "?" + mid, list, '?');
    OccurrencesAppend(head + "?" + mid + list, ")", '?');
  }

  /** The statement the filter prepares for `n` categories. It has one
      placeholder per bound argument (the name pattern and each category);
      with no categories it ends in `(category = )`, which is not SQL. */
  function FilterStatement(n: nat): (sql: string)
    ensures Occurrences(sql, '?') == n + 1
    ensures n == 0 ==> sql == "select * from menu where name like ? and (category = )"
  {
    assert '?' !in SelectHead && '?' !in AndCategory;
    StatementPlaceholders(SelectHead, AndCategory, Placeholders(n));
    SelectHead + "?" + AndCategory + Placeholders(n) + ")"
  }

  /** The `where` clause of the filter, for a bound pattern and category
      list. Under an empty search (`%%`) only the category decides. */
  predicate RowMatches(row: Row, pattern: string, categories: seq<string>): (matches: bool)
    ensures pattern == LikePattern("") ==> (matches <==> row.item.category in categories)
  {
    assert OccursAt(row.item.name, "", 0);
    Like(row.item.name, pattern) && row.item.category in categories
  }

  /** The rows the filter returns, in storage order: every returned row
      satisfies the `where` clause, every row that does is returned, and
      nothing is reordered. */
  function Matching(rows: seq<Row>, pattern: string, categories: seq<string>): (r: seq<Row>)
    ensures IsSubsequence(r, rows)
    ensures forall x :: x in r ==> RowMatches(x, pattern, categories)
    ensures forall x :: x in rows && RowMatches(x, pattern, categories) ==> x in r
  {
    if rows == [] then []
    else
      var rest := Matching(rows[1..], pattern, categories);
      if RowMatches(rows[0], pattern, categories) then
        assert ([rows[0]] + rest)[1..] == rest;
        [rows[0]] + rest
      else
        rest
  }

  // ---------------------------------------------------------------------
  // The table
  // ---------------------------------------------------------------------

  /** The `menu` table behind the module-level database handle. */
  class MenuTable {
    var created: bool
    var rows: seq<Row>
    /** The rowid SQLite gives the next insert: one more than the largest in use. */
    var nextId: int

    ghost predicate Valid()
      reads this
    {
      && (!created ==> rows == [])
      && IdsAscending(rows)
      && nextId == MaxId(rows) + 1
    }

    /** `openDatabase('little_lemon')` on a device where the table does not exist yet. */
    constructor ()
      ensures Valid() && !created && rows == []
    {
      created := false;
      rows := [];
      nextId := 1;
    }

    /** `createTable`: `create table if not exists`, so a second call keeps every row. */
    method CreateTable()
      requires Valid()
      modifies this
      ensures Valid() && created
      ensures rows == old(rows) && nextId == old(nextId)
    {
      created := true;
    }

    /** `getMenuItems`: `select * from menu`, every row in storage order. */
    method GetMenuItems() returns (r: Result<seq<Row>, DbError>)
      ensures r == if created then Ok(rows) else Err(NoSuchTable)
    {
      if !created {
        return Err(NoSuchTable);
      }
      r := Ok(rows);
    }

    /** One `insert into menu (name, price, description, image, category)
        values (?, ?, ?, ?, ?)`: the row gets the next rowid. */
    method Insert(item: MenuItem) returns (r: Result<(), DbError>)
      requires Valid()
      modifies this
      ensures Valid() && created == old(created)
      ensures r == if created then Ok(()) else Err(NoSuchTable)
      ensures created ==> rows == old(rows) + [Row(old(nextId), item)] && nextId == old(nextId) + 1
      ensures !created ==> rows == old(rows) && nextId == old(nextId)
    {
      if !created {
        return Err(NoSuchTable);
      }
      var row := Row(nextId, item);
      AppendRow(rows, row);
      rows := rows + [row];
      nextId := nextId + 1;
      r := Ok(());
    }

    /** The `forEach` of `saveMenuItems`: one insert per item, in order;
        `failed` says whether any insert was rejected. */
    method InsertEach(items: seq<MenuItem>) returns (failed: bool)
      requires Valid()
      modifies this
      ensures Valid() && created == old(created)
      ensures failed <==> !created && items != []
      ensures rows == if created then old(rows) + Numbered(items, old(nextId)) else old(rows)
    {
      failed := false;
      ghost var before, start := rows, nextId;
      for i := 0 to |items|
        invariant Valid() && created == old(created)
        invariant created ==> nextId == start + i && rows == before + Numbered(items[..i], start)
        invariant !created ==> rows == before
        invariant failed <==> !created && i > 0
      {
        NumberedStep(before, items, i, start);
        var inserted := Insert(items[i]);
        failed := failed || inserted.Err?;
      }
      assert items[..|items|] == items;
    }

    /** `saveMenuItems`: every item inserted in order inside one
        transaction. Each insert fails when the table is missing, which
        rejects the call; with no items no statement runs and the call
        succeeds whether or not the table exists. */
    method SaveMenuItems(items: seq<MenuItem>) returns (r: Result<(), DbError>)
      requires Valid()
      modifies this
      ensures Valid() && created == old(created)
      ensures r.Ok? <==> old(created) || items == []
      ensures rows == if created then old(rows) + Numbered(items, old(nextId)) else old(rows)
      ensures Items(rows) == if created then old(Items(rows)) + items else old(Items(rows))
    {
      var failed := InsertEach(items);
      r := if failed then Err(NoSuchTable) else Ok(());
      if created {
        ItemsAppend(old(rows), Numbered(items, old(nextId)));
        NumberedShape(items, old(nextId));
      }
    }

    /** `filterByQueryAndCategories`: `select * from menu where name like ?
        and (category = ? OR category = ? ...)` with `%query%` and the
        categories bound. With no categories the statement cannot be
        prepared and the call rejects; it does not return an empty list. */
    method FilterByQueryAndCategories(query: string, categories: seq<string>) returns (r: Result<seq<Row>, DbError>)
      ensures |categories| == 0 ==> r == Err(SyntaxError)
      ensures |categories| > 0 && !created ==> r == Err(NoSuchTable)
      ensures |categories| > 0 && created ==> r == Ok(Matching(rows, LikePattern(query), categories))
    {
      var sql := FilterStatement(|categories|);
      var args := [LikePattern(query)] + categories;
      assert Occurrences(sql, '?') == |args|;
      if |categories| == 0 {
        // the text ends in "(category = )": preparing it fails
        return Err(SyntaxError);
      }
      if !created {
        return Err(NoSuchTable);
      }
      r := Ok(Matching(rows, args[0], args[1..]));
    }
  }
}
