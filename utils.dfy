/** The input validators of the app (name, phone number, e-mail address), the
    "skip the first run" effect flag, and the profile record that the
    onboarding and profile screens store.

    Each validator is a hand-written recogniser for the regular expression the
    app uses; where the recogniser is organised differently from the regular
    expression (the e-mail check splits at the last '@' and at dots), a lemma
    proves the two accept the same strings. */
module Utils {
  import opened Common

  // ---------------------------------------------------------------------
  // Character classes
  // ---------------------------------------------------------------------

  /** The characters JavaScript's `\s` matches (white space and line
      terminators); `String.prototype.trim` strips exactly these. */
  predicate IsWhitespace(c: char) {
    c == '\t' || c == '\n' || c == '\U{B}' || c == '\U{C}' || c == '\r' || c == ' '
    || c == '\U{A0}' || c == '\U{1680}' || ('\U{2000}' <= c <= '\U{200A}')
    || c == '\U{2028}' || c == '\U{2029}' || c == '\U{202F}' || c == '\U{205F}'
    || c == '\U{3000}' || c == '\U{FEFF}'
  }

  /** The line terminators: the characters a regular-expression `.` does not match. */
  predicate IsLineTerminator(c: char) {
    c == '\n' || c == '\r' || c == '\U{2028}' || c == '\U{2029}'
  }

  /** The bracketed character classes the validators use. */
  datatype CharClass =
    | Letter     // [A-Za-z]
    | Digit      // [0-9], also \d
    | LabelChar  // [a-zA-Z\-0-9], a character of a host-name label
    | AtomChar   // [^<>()[\]\\.,;:\s@"], a character of an unquoted local part

  predicate InClass(c: char, cls: CharClass) {
    match cls
    case Letter => ('A' <= c <= 'Z') || ('a' <= c <= 'z')
    case Digit => '0' <= c <= '9'
    case LabelChar => ('A' <= c <= 'Z') || ('a' <= c <= 'z') || ('0' <= c <= '9') || c == '-'
    case AtomChar => c !in "<>()[]\\.,;:@\"" && !IsWhitespace(c)
  }

  /** `[cls]*`: every character of `s` is in `cls`, checked left to right. */
  function AllIn(s: string, cls: CharClass): (r: bool)
    ensures r <==> forall i :: 0 <= i < |s| ==> InClass(s[i], cls)
  {
    s == [] || (InClass(s[0], cls) && AllIn(s[1..], cls))
  }

  // ---------------------------------------------------------------------
  // validateString
  // ---------------------------------------------------------------------

  /** `String.prototype.trimStart`. */
  function TrimStart(s: string): (r: string)
    ensures |r| <= |s| && r == s[|s| - |r|..]
    ensures forall i :: 0 <= i < |s| - |r| ==> IsWhitespace(s[i])
    ensures r != [] ==> !IsWhitespace(r[0])
  {
    if s != [] && IsWhitespace(s[0]) then TrimStart(s[1..]) else s
  }

  /** `String.prototype.trimEnd`. */
  function TrimEnd(s: string): (r: string)
    ensures |r| <= |s| && r == s[..|r|]
    ensures forall i :: |r| <= i < |s| ==> IsWhitespace(s[i])
    ensures r != [] ==> !IsWhitespace(r[|r| - 1])
  {
    if s != [] && IsWhitespace(s[|s| - 1]) then TrimEnd(s[..|s| - 1]) else s
  }

  /** `String.prototype.trim`: empty exactly for the blank strings. */
  function Trim(s: string): (r: string)
    ensures r == [] <==> forall i :: 0 <= i < |s| ==> IsWhitespace(s[i])
  {
    var t := TrimStart(s);
    assert t != [] ==> !IsWhitespace(s[|s| - |t|]);
    TrimEnd(t)
  }

  /** `validateString`: the trimmed text is non-empty and the whole text
      matches `^[A-Za-z]+$`. The trim check adds nothing: a name is valid
      exactly when it is one or more ASCII letters. */
  function ValidateString(data: string): (ok: bool)
    ensures ok <==> |data| > 0 && forall i :: 0 <= i < |data| ==> InClass(data[i], Letter)
  {
    |Trim(data)| > 0 && |data| > 0 && AllIn(data, Letter)
  }

  // ---------------------------------------------------------------------
  // validatePhoneNumber
  // ---------------------------------------------------------------------

  /** `validatePhoneNumber`: the text matches `^\d{10}$`, ten ASCII digits and
      nothing else (the masked form "(555) 123-4567" is not accepted; the
      profile screen passes the unmasked digits). */
  function ValidatePhoneNumber(phoneNumber: string): (ok: bool)
    ensures ok <==> |phoneNumber| == 10 && forall i :: 0 <= i < 10 ==> '0' <= phoneNumber[i] <= '9'
  {
    |phoneNumber| == 10 && AllIn(phoneNumber, Digit)
  }

  // ---------------------------------------------------------------------
  // Cutting text at a separator
  // ---------------------------------------------------------------------

  /** The pieces glued together with `sep` between neighbours. */
  function Join(parts: seq<string>, sep: char): string
    requires |parts| >= 1
  {
    if |parts| == 1 then parts[0] else parts[0] + [sep] + Join(parts[1..], sep)
  }

  /** `s` cut at every `sep`: at least one piece, possibly empty ones, none
      holding the separator (`JoinOfSplit` glues them back). */
  function Split(s: string, sep: char): (parts: seq<string>)
    ensures |parts| >= 1
    ensures forall i :: 0 <= i < |parts| ==> sep !in parts[i]
  {
    if s == [] then [[]]
    else
      var rest := Split(s[1..], sep);
      if s[0] == sep then [[]] + rest
      else [[s[0]] + rest[0]] + rest[1..]
  }

  /** Gluing the pieces back with the separator gives the text. */
  lemma {:induction false} JoinOfSplit(s: string, sep: char)
    ensures Join(Split(s, sep), sep) == s
  {
    if s != [] {
      var rest := Split(s[1..], sep);
      JoinOfSplit(s[1..], sep);
      if s[0] == sep {
        assert ([[]] + rest)[1..] == rest;
      } else {
        var parts := [[s[0]] + rest[0]] + rest[1..];
        assert parts[1..] == rest[1..];
        assert |rest| > 1 ==> Join(rest, sep) == rest[0] + [sep] + Join(rest[1..], sep);
        assert Join(parts, sep) == [s[0]] + Join(rest, sep);
      }
    }
  }

  /** Cutting `a + x` where `a` has no separator glues `a` to the first piece of `x`. */
  lemma {:induction false} SplitPrefix(a: string, x: string, sep: char)
    requires sep !in a
    ensures Split(a + x, sep) == [a + Split(x, sep)[0]] + Split(x, sep)[1..]
  {
    if a != [] {
      SplitPrefix(a[1..], x, sep);
      assert (a + x)[1..] == a[1..] + x;
      assert [a[0]] + (a[1..] + Split(x, sep)[0]) == a + Split(x, sep)[0];
    } else {
      var parts := Split(x, sep);
      assert a + x == x && a + parts[0] == parts[0];
      assert [parts[0]] + parts[1..] == parts;
    }
  }

  /** Cutting a separator-free piece, a separator and a tail gives the piece
      followed by the tail's pieces. */
  lemma SplitOfSeparated(head: string, tail: string, sep: char)
    requires sep !in head
    ensures Split(head + [sep] + tail, sep) == [head] + Split(tail, sep)
  {
    var x := [sep] + tail;
    assert x[0] == sep && x[1..] == tail;
    assert Split(x, sep) == [[]] + Split(tail, sep);
    SplitPrefix(head, x, sep);
    assert head + [sep] + tail == head + x;
    assert head + [] == head;
  }

  /** Split undoes Join when no piece holds the separator. */
  lemma {:induction false} SplitOfJoin(parts: seq<string>, sep: char)
    requires |parts| >= 1
    requires forall i :: 0 <= i < |parts| ==> sep !in parts[i]
    ensures Split(Join(parts, sep), sep) == parts
  {
    if |parts| == 1 {
      SplitPrefix(parts[0], [], sep);
      assert parts[0] + [] == parts[0];
    } else {
      SplitOfJoin(parts[1..], sep);
      SplitOfSeparated(parts[0], Join(parts[1..], sep), sep);
      assert [parts[0]] + parts[1..] == parts;
    }
  }

  /** A character that is not the separator and is in no piece is not in the glued text. */
  lemma {:induction false} JoinAvoids(parts: seq<string>, sep: char, c: char)
    requires |parts| >= 1 && c != sep
    requires forall i :: 0 <= i < |parts| ==> c !in parts[i]
    ensures c !in Join(parts, sep)
  {
    if |parts| > 1 {
      JoinAvoids(parts[1..], sep, c);
    }
  }

  /** Gluing two or more pieces puts a separator in the text. */
  lemma JoinHasSeparator(parts: seq<string>, sep: char)
    requires |parts| >= 2
    ensures sep in Join(parts, sep)
  {
    assert Join(parts, sep)[|parts[0]|] == sep;
  }

  /** Gluing non-empty, separator-free pieces never yields a leading, a
      trailing or a doubled separator. */
  lemma {:induction false} JoinShape(parts: seq<string>, sep: char)
    requires |parts| >= 1
    requires forall i :: 0 <= i < |parts| ==> |parts[i]| > 0 && sep !in parts[i]
    ensures var s := Join(parts, sep);
      && |s| > 0 && s[0] != sep && s[|s| - 1] != sep
      && forall i :: 0 <= i < |s| - 1 && s[i] == sep ==> s[i + 1] != sep
  {
    if |parts| > 1 {
      var p, t := parts[0], Join(parts[1..], sep);
      JoinShape(parts[1..], sep);
      var s := p + [sep] + t;
      assert s == Join(parts, sep);
      assert s[0] == p[0];
      assert s[|s| - 1] == t[|t| - 1];
      forall i | 0 <= i < |s| - 1 && s[i] == sep
        ensures s[i + 1] != sep
      {
        if i == |p| {
          assert s[i + 1] == t[0];
        } else {
          assert s[i] == t[i - |p| - 1] && s[i + 1] == t[i - |p|];
        }
      }
    }
  }

  // ---------------------------------------------------------------------
  // validateEmail
  // ---------------------------------------------------------------------

  /** The position of the last `c` in `s`, if any. */
  function LastIndexOf(s: string, c: char): (r: Option<nat>)
    ensures r.None? <==> c !in s
    ensures r.Some? ==> r.value < |s| && s[r.value] == c
    ensures r.Some? ==> forall j :: r.value < j < |s| ==> s[j] != c
  {
    if s == [] then None
    else if s[|s| - 1] == c then Some(|s| - 1)
    else
      var init := s[..|s| - 1];
      assert forall j :: 0 <= j < |init| ==> init[j] == s[j];
      assert c in s ==> c in init;
      LastIndexOf(init, c)
  }

  /** `atom(\.atom)*` with atoms drawn from `cls`: every dot-separated piece
      is a non-empty run of `cls` characters. */
  predicate DotSeparated(s: string, cls: CharClass) {
    var words := Split(s, '.');
    forall i :: 0 <= i < |words| ==> |words[i]| > 0 && AllIn(words[i], cls)
  }

  /** The same shape read straight off the regular expression: some list of
      one or more non-empty `cls` words joined by dots. */
  ghost predicate DotSeparatedPattern(s: string, cls: CharClass) {
    exists words: seq<string> ::
      && |words| >= 1 && s == Join(words, '.')
      && forall i :: 0 <= i < |words| ==> |words[i]| > 0 && AllIn(words[i], cls)
  }

  /** The split-based recogniser accepts exactly the strings of the regular expression's shape. */
  lemma DotSeparatedMatchesPattern(s: string, cls: CharClass)
    ensures DotSeparated(s, cls) <==> DotSeparatedPattern(s, cls)
  {
    if DotSeparatedPattern(s, cls) {
      var words :| && |words| >= 1 && s == Join(words, '.')
                   && forall i :: 0 <= i < |words| ==> |words[i]| > 0 && AllIn(words[i], cls);
      SplitOfJoin(words, '.');
    }
    if DotSeparated(s, cls) {
      var words := Split(s, '.');
      JoinOfSplit(s, '.');
    }
  }

  /** A dot-separated word list has no leading, trailing or doubled dot. */
  lemma DotSeparatedHasNoStrayDot(s: string, cls: CharClass)
    requires DotSeparated(s, cls)
    ensures |s| > 0 && s[0] != '.' && s[|s| - 1] != '.'
    ensures forall i :: 0 <= i < |s| - 1 && s[i] == '.' ==> s[i + 1] != '.'
  {
    JoinOfSplit(s, '.');
    JoinShape(Split(s, '.'), '.');
  }

  /** `\".+\"`: a quoted local part, any characters but line terminators
      between the quotes. It never reads as a dot-separated local part, since
      its first piece starts with a quote: the two alternatives are disjoint. */
  predicate IsQuotedLocal(l: string): (quoted: bool)
    ensures quoted ==> !DotSeparated(l, AtomChar)
  {
    var quoted := |l| >= 3 && l[0] == '"' && l[|l| - 1] == '"'
                  && forall i :: 1 <= i < |l| - 1 ==> !IsLineTerminator(l[i]);
    assert quoted ==> !InClass(Split(l, '.')[0][0], AtomChar) by {
      if quoted {
        assert Split(l, '.')[0] == [l[0]] + Split(l[1..], '.')[0];
      }
    }
    quoted
  }

  /** The part before '@', as the recogniser checks it. */
  predicate IsLocalPart(l: string) {
    DotSeparated(l, AtomChar) || IsQuotedLocal(l)
  }

  /** The part before '@', as the regular expression reads it. */
  ghost predicate LocalPartPattern(l: string) {
    DotSeparatedPattern(l, AtomChar) || IsQuotedLocal(l)
  }

  lemma LocalPartMatchesPattern(l: string)
    ensures IsLocalPart(l) <==> LocalPartPattern(l)
  {
    DotSeparatedMatchesPattern(l, AtomChar);
  }

  /** One to three ASCII digits, `[0-9]{1,3}`. */
  predicate DigitGroup(g: string) {
    1 <= |g| <= 3 && AllIn(g, Digit)
  }

  /** The address-literal alternative as the recogniser checks it: between
      the brackets, cut at the dots, exactly four groups of digits. */
  predicate IsAddressLiteral(d: string) {
    && |d| >= 2 && d[0] == '[' && d[|d| - 1] == ']'
    && var groups := Split(d[1..|d| - 1], '.');
    && |groups| == 4
    && forall i :: 0 <= i < 4 ==> DigitGroup(groups[i])
  }

  /** `\[[0-9]{1,3}\.[0-9]{1,3}\.[0-9]{1,3}\.[0-9]{1,3}\]` read straight off
      the regular expression. */
  ghost predicate AddressLiteralPattern(d: string) {
    exists g: seq<string> ::
      && |g| == 4 && (forall i :: 0 <= i < 4 ==> DigitGroup(g[i]))
      && d == "[" + g[0] + "." + g[1] + "." + g[2] + "." + g[3] + "]"
  }

  /** Four pieces glued with dots, in brackets. */
  lemma BracketedFour(g: seq<string>)
    requires |g| == 4
    ensures "[" + g[0] + "." + g[1] + "." + g[2] + "." + g[3] + "]" == "[" + Join(g, '.') + "]"
  {
    assert Join(g[3..], '.') == g[3];
    assert Join(g[2..], '.') == g[2] + "." + g[3];
    assert Join(g[1..], '.') == g[1] + "." + (g[2] + "." + g[3]);
  }

  /** The text between the brackets of `[inner]` is `inner`. */
  lemma BracketedInner(d: string, inner: string)
    requires d == "[" + inner + "]"
    ensures |d| >= 2 && d[0] == '[' && d[|d| - 1] == ']' && d[1..|d| - 1] == inner
  {
  }

  /** A digit group holds no dot. */
  lemma DigitGroupHasNoDot(g: string)
    requires DigitGroup(g)
    ensures '.' !in g
  {
    assert forall j :: 0 <= j < |g| ==> InClass(g[j], Digit);
  }

  /** The recogniser's address literal is the regular expression's. */
  lemma AddressLiteralIsPattern(d: string)
    requires IsAddressLiteral(d)
    ensures AddressLiteralPattern(d)
  {
    var inner := d[1..|d| - 1];
    var g := Split(inner, '.');
    JoinOfSplit(inner, '.');
    BracketedFour(g);
    assert d == [d[0]] + inner + [d[|d| - 1]];
  }

  /** The regular expression's address literal is the recogniser's. */
  lemma PatternIsAddressLiteral(d: string)
    requires AddressLiteralPattern(d)
    ensures IsAddressLiteral(d)
  {
    var g :| && |g| == 4 && (forall i :: 0 <= i < 4 ==> DigitGroup(g[i]))
             && d == "[" + g[0] + "." + g[1] + "." + g[2] + "." + g[3] + "]";
    forall i | 0 <= i < 4
      ensures '.' !in g[i]
    {
      DigitGroupHasNoDot(g[i]);
    }
    SplitOfJoin(g, '.');
    BracketedFour(g);
    BracketedInner(d, Join(g, '.'));
  }

  lemma AddressLiteralMatchesPattern(d: string)
    ensures IsAddressLiteral(d) <==> AddressLiteralPattern(d)
  {
    if IsAddressLiteral(d) {
      AddressLiteralIsPattern(d);
    }
    if AddressLiteralPattern(d) {
      PatternIsAddressLiteral(d);
    }
  }

  /** The host-name alternative as the recogniser checks it: cut at the dots,
      at least two pieces; every piece but the last a non-empty run of
      `[a-zA-Z\-0-9]`, the last one at least two letters. */
  predicate IsHostName(d: string) {
    var labels := Split(d, '.');
    && |labels| >= 2
    && (forall i :: 0 <= i < |labels| - 1 ==> |labels[i]| > 0 && AllIn(labels[i], LabelChar))
    && |labels[|labels| - 1]| >= 2 && AllIn(labels[|labels| - 1], Letter)
  }

  /** `(w\.)+`: every word followed by a dot. */
  function DotTerminated(words: seq<string>): string {
    if words == [] then [] else words[0] + "." + DotTerminated(words[1..])
  }

  /** Words each followed by a dot, then a last word, is the words and the
      last word glued with dots. */
  lemma {:induction false} DotTerminatedJoin(words: seq<string>, last: string)
    ensures DotTerminated(words) + last == Join(words + [last], '.')
  {
    if words == [] {
      assert words + [last] == [last];
      assert DotTerminated(words) + last == last;
    } else {
      var all := words + [last];
      assert all[0] == words[0] && all[1..] == words[1..] + [last];
      calc {
        DotTerminated(words) + last;
        words[0] + "." + (DotTerminated(words[1..]) + last);
        { DotTerminatedJoin(words[1..], last); }
        words[0] + "." + Join(words[1..] + [last], '.');
        Join(all, '.');
      }
    }
  }

  /** `([a-zA-Z\-0-9]+\.)+[a-zA-Z]{2,}` read straight off the regular
      expression: one or more labels, each followed by a dot, then a
      top-level name of at least two letters. */
  ghost predicate HostNamePattern(d: string) {
    exists labels: seq<string>, top: string ::
      && |labels| >= 1 && d == DotTerminated(labels) + top
      && (forall i :: 0 <= i < |labels| ==> |labels[i]| > 0 && AllIn(labels[i], LabelChar))
      && |top| >= 2 && AllIn(top, Letter)
  }

  /** The recogniser's host name is the regular expression's. */
  lemma HostNameIsPattern(d: string)
    requires IsHostName(d)
    ensures HostNamePattern(d)
  {
    var parts := Split(d, '.');
    var labels, top := parts[..|parts| - 1], parts[|parts| - 1];
    assert parts == labels + [top];
    JoinOfSplit(d, '.');
    DotTerminatedJoin(labels, top);
    assert forall i :: 0 <= i < |labels| ==> labels[i] == parts[i];
  }

  /** The regular expression's host name is the recogniser's. */
  lemma PatternIsHostName(d: string)
    requires HostNamePattern(d)
    ensures IsHostName(d)
  {
    var labels, top :| && |labels| >= 1 && d == DotTerminated(labels) + top
                        && (forall i :: 0 <= i < |labels| ==> |labels[i]| > 0 && AllIn(labels[i], LabelChar))
                        && |top| >= 2 && AllIn(top, Letter);
    var parts := labels + [top];
    DotTerminatedJoin(labels, top);
    forall i | 0 <= i < |parts|
      ensures '.' !in parts[i]
    {
      if i < |labels| {
        assert forall j :: 0 <= j < |labels[i]| ==> InClass(labels[i][j], LabelChar);
      } else {
        assert forall j :: 0 <= j < |top| ==> InClass(top[j], Letter);
      }
    }
    SplitOfJoin(parts, '.');
  }

  lemma HostNameMatchesPattern(d: string)
    ensures IsHostName(d) <==> HostNamePattern(d)
  {
    if IsHostName(d) {
      HostNameIsPattern(d);
    }
    if HostNamePattern(d) {
      PatternIsHostName(d);
    }
  }

  /** The part after '@', as the recogniser checks it. */
  predicate IsDomain(d: string) {
    IsAddressLiteral(d) || IsHostName(d)
  }

  /** The part after '@', as the regular expression reads it. */
  ghost predicate DomainPattern(d: string) {
    AddressLiteralPattern(d) || HostNamePattern(d)
  }

  lemma DomainMatchesPattern(d: string)
    ensures IsDomain(d) <==> DomainPattern(d)
  {
    AddressLiteralMatchesPattern(d);
    HostNameMatchesPattern(d);
  }

  /** No domain contains '@', and every domain contains a dot (so a dotless
      host such as "localhost" is not a domain). */
  lemma DomainShape(d: string)
    requires IsDomain(d)
    ensures '@' !in d && '.' in d
  {
    if IsAddressLiteral(d) {
      var inner := d[1..|d| - 1];
      var groups := Split(inner, '.');
      forall i | 0 <= i < |groups|
        ensures '@' !in groups[i]
      {
        assert forall j :: 0 <= j < |groups[i]| ==> InClass(groups[i][j], Digit);
      }
      JoinOfSplit(inner, '.');
      JoinAvoids(groups, '.', '@');
      JoinHasSeparator(groups, '.');
      assert d == [d[0]] + inner + [d[|d| - 1]];
    } else {
      var labels := Split(d, '.');
      forall i | 0 <= i < |labels|
        ensures '@' !in labels[i]
      {
        if i < |labels| - 1 {
          assert forall j :: 0 <= j < |labels[i]| ==> InClass(labels[i][j], LabelChar);
        } else {
          assert forall j :: 0 <= j < |labels[i]| ==> InClass(labels[i][j], Letter);
        }
      }
      JoinOfSplit(d, '.');
      JoinAvoids(labels, '.', '@');
      JoinHasSeparator(labels, '.');
    }
  }

  /** The whole regular expression, anchored at both ends: the address is a
      local part, an '@' and a domain, at some '@' of the text. */
  ghost predicate EmailPattern(email: string) {
    exists k :: CutWorks(email, k)
  }

  /** The text reads as a local part, an '@' at position `k`, and a domain. */
  ghost predicate CutWorks(email: string, k: int) {
    0 <= k < |email| && email[k] == '@' && LocalPartPattern(email[..k]) && DomainPattern(email[k + 1..])
  }

  /** An '@' with no '@' after it is the last one. */
  lemma CutAtLast(email: string, j: nat, k: nat)
    requires LastIndexOf(email, '@') == Some(k)
    requires j < |email| && email[j] == '@' && '@' !in email[j + 1..]
    ensures j == k
  {
  }

  /** Since a domain holds no '@', the only '@' at which the address can be
      cut is the last one. */
  lemma EmailCutIsLast(email: string, k: nat)
    requires LastIndexOf(email, '@') == Some(k)
    ensures EmailPattern(email) <==> IsLocalPart(email[..k]) && IsDomain(email[k + 1..])
  {
    LocalPartMatchesPattern(email[..k]);
    DomainMatchesPattern(email[k + 1..]);
    if EmailPattern(email) {
      var j :| CutWorks(email, j);
      DomainMatchesPattern(email[j + 1..]);
      DomainShape(email[j + 1..]);
      CutAtLast(email, j, k);
    }
    if IsLocalPart(email[..k]) && IsDomain(email[k + 1..]) {
      assert CutWorks(email, k);
    }
  }

  /** `validateEmail`: cut at the last '@' and check both sides; this
      accepts exactly the addresses the regular expression accepts. */
  function ValidateEmail(email: string): (ok: bool)
    ensures ok <==> EmailPattern(email)
  {
    match LastIndexOf(email, '@')
    case None => false
    case Some(k) =>
      EmailCutIsLast(email, k);
      IsLocalPart(email[..k]) && IsDomain(email[k + 1..])
  }

  /** The empty string is not a local part. */
  lemma EmptyIsNotLocalPart()
    ensures !IsLocalPart([])
  {
    var words := Split([], '.');
    assert words == [[]] && |words[0]| == 0;
    assert !DotSeparated([], AtomChar);
  }

  /** Every accepted address is a non-empty local part, one last '@', and a
      domain that has a dot and no '@'. */
  lemma AcceptedEmailShape(email: string)
    requires ValidateEmail(email)
    ensures exists k :: && 0 < k < |email| && email[k] == '@'
                        && '@' !in email[k + 1..] && '.' in email[k + 1..]
  {
    var k :| CutWorks(email, k);
    LocalPartMatchesPattern(email[..k]);
    DomainMatchesPattern(email[k + 1..]);
    DomainShape(email[k + 1..]);
    EmptyIsNotLocalPart();
  }

  /** An unquoted local part with a leading, trailing or doubled dot is refused. */
  lemma UnquotedLocalPartDots(l: string)
    requires IsLocalPart(l) && (l == [] || l[0] != '"')
    ensures |l| > 0 && l[0] != '.' && l[|l| - 1] != '.'
    ensures forall i :: 0 <= i < |l| - 1 && l[i] == '.' ==> l[i + 1] != '.'
  {
    DotSeparatedHasNoStrayDot(l, AtomChar);
  }

  // ---------------------------------------------------------------------
  // useUpdateEffect
  // ---------------------------------------------------------------------

  /** The `isInitialMount` reference of `useUpdateEffect`: the wrapped effect
      is skipped the first time React runs it and run every time after. */
  class UpdateEffect {
    var isInitialMount: bool

    constructor ()
      ensures isInitialMount
    {
      isInitialMount := true;
    }

    /** One run by React; `ran` says whether the wrapped effect was run. */
    method Invoke() returns (ran: bool)
      modifies this
      ensures ran <==> !old(isInitialMount)
      ensures !isInitialMount
    {
      if isInitialMount {
        isInitialMount := false;
        ran := false;
      } else {
        ran := true;
      }
    }
  }

  // ---------------------------------------------------------------------
  // ProfileData
  // ---------------------------------------------------------------------

  /** The profile record kept under the `profileData` key. The image is
      `None` after "Remove" (the screen stores `null` there) and `Some("")`
      straight after onboarding. */
  datatype ProfileData = ProfileData(
    profileImage: Option<string>,
    profileEmail: string,
    firstName: string,
    lastName: string,
    phoneNumber: string,
    orderStatus: bool,
    passwordChanges: bool,
    specialOffers: bool,
    newsLetters: bool)
}
