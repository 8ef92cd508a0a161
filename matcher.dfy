/** The contact matcher: `check_contact_in_database` in python/app.py.
    It splits an extracted name into a first and a last name and looks the
    pair up, case-insensitively, in the contacts table left-joined to the
    companies table; every failure on the way degrades to "not found". */
module Matcher {
  import opened Wrappers
  import opened Json
  import opened PyStr

  /** One row of `contacts LEFT JOIN companies`: the contact's names and the
      joined company name, which is NULL when the contact has no company. */
  datatype ContactRow = ContactRow(firstName: string, lastName: string, companyName: Option<string>)

  /** The contact store as one request meets it. */
  datatype Store =
      /** Opening the connection (or a cursor on it) raises. */
    | Unreachable
      /** The connection opens, but executing the query or fetching from it raises. */
    | Broken
      /** The query runs over these rows, in the (unspecified) order in
          which the database returns them. */
    | Serving(rows: seq<ContactRow>)

  /** What the lookup amounts to before the fail-open collapse. */
  datatype Lookup = Matched(company: Option<string>) | NotMatched | LookupFailed

  /** `first` is the first whitespace-delimited token of the stripped name
      `t`, and `rest` is everything after the whitespace run that follows it
      (inner whitespace kept). */
  predicate FirstRunSplit(t: string, first: string, rest: string) {
    && first != [] && NoSpace(first)
    && rest != [] && !IsSpace(rest[0])
    && |first| + |rest| < |t|
    && t[..|first|] == first
    && t[|t| - |rest|..] == rest
    && AllSpace(t[|first|..|t| - |rest|])
  }

  /** The (first name, last name) pair the source derives from the stripped
      name `t`: one token gives an empty last name, more tokens split at the
      first whitespace run. */
  predicate IsNameSplit(t: string, first: string, last: string) {
    || (last == [] && first == t && t != [] && NoSpace(t))
    || FirstRunSplit(t, first, last)
  }

  /** Where the characters of a split name fall: the first part has no
      whitespace, the separator is all whitespace, the rest begins with a
      non-whitespace character. */
  lemma FirstRunSplitPositions(t: string, first: string, rest: string)
    requires FirstRunSplit(t, first, rest)
    ensures forall k :: 0 <= k < |first| ==> !IsSpace(t[k])
    ensures forall k :: |first| <= k < |t| - |rest| ==> IsSpace(t[k])
    ensures !IsSpace(t[|t| - |rest|])
  {
    forall k | 0 <= k < |first| ensures !IsSpace(t[k]) {
      assert t[k] == t[..|first|][k];
    }
    forall k | |first| <= k < |t| - |rest| ensures IsSpace(t[k]) {
      assert t[k] == t[|first|..|t| - |rest|][k - |first|];
    }
    assert t[|t| - |rest|] == t[|t| - |rest|..][0];
  }

  /** A stripped name splits at its first whitespace run in only one way. */
  lemma FirstRunSplitUnique(t: string, f1: string, r1: string, f2: string, r2: string)
    requires FirstRunSplit(t, f1, r1) && FirstRunSplit(t, f2, r2)
    ensures f1 == f2 && r1 == r2
  {
    FirstRunSplitPositions(t, f1, r1);
    FirstRunSplitPositions(t, f2, r2);
    assert IsSpace(t[|f1|]) && IsSpace(t[|f2|]);
    assert |f1| == |f2|;
    assert !IsSpace(t[|t| - |r1|]) && !IsSpace(t[|t| - |r2|]);
    assert |r1| == |r2|;
  }

  /** `split(None, 1)` of a stripped, non-empty name yields one part exactly
      when the name has no whitespace, and otherwise splits it at its first
      whitespace run. */
  lemma SplitOfStripped(t: string)
    requires t == [] || (!IsSpace(t[0]) && !IsSpace(t[|t| - 1]))
    ensures |SplitOnce(t)| == 1 <==> t != [] && NoSpace(t)
    ensures |SplitOnce(t)| == 1 ==> SplitOnce(t)[0] == t
    ensures |SplitOnce(t)| == 2 ==> FirstRunSplit(t, SplitOnce(t)[0], SplitOnce(t)[1])
  {
    if t == [] {
      return;
    }
    assert LeadingSpaces(t) == 0;
    assert t[0..] == t;
    var j := TokenLength(t);
    if j == |t| {
      assert t[..j] == t;
    } else {
      var k := j + LeadingSpaces(t[j..]);
      assert t[j..][0] == t[j];
      assert t[j..][|t| - j - 1] == t[|t| - 1];
      assert k < |t|;
      assert SplitOnce(t) == [t[..j], t[k..]];
      assert t[j..k] == t[j..][..k - j];
      assert !NoSpace(t) by { assert IsSpace(t[j]); }
    }
  }

  /** Lines 107-114: the first and last name taken from a name, or `None`
      when the name holds no token at all. */
  function NameParts(name: string): (r: Option<(string, string)>)
    ensures r.None? <==> AllSpace(name)
    ensures r.Some? ==> IsNameSplit(Strip(name), r.value.0, r.value.1)
  {
    var t := Strip(name);
    var parts := SplitOnce(t);
    SplitOfStripped(t);
    if |parts| == 2 then Some((parts[0], parts[1]))
    else if |parts| == 1 then Some((parts[0], []))
    else None
  }

  /** NameParts agrees with the reference description of the split, in
      both directions. */
  lemma NamePartsCharacterized(name: string, first: string, last: string)
    ensures NameParts(name) == Some((first, last)) <==> IsNameSplit(Strip(name), first, last)
  {
    var t := Strip(name);
    if IsNameSplit(t, first, last) {
      SplitOfStripped(t);
      var r := NameParts(name);
      if FirstRunSplit(t, first, last) {
        assert t[|first|] == t[|first|..|t| - |last|][0];
        assert !NoSpace(t);
        FirstRunSplitUnique(t, first, last, r.value.0, r.value.1);
      }
    }
  }

  /** The WHERE clause: both names equal after `LOWER`. */
  predicate RowMatches(row: ContactRow, first: string, last: string)
    ensures row.firstName == first && row.lastName == last ==> RowMatches(row, first, last)
    ensures RowMatches(row, first, last) ==> |row.firstName| == |first| && |row.lastName| == |last|
  {
    Lower(row.firstName) == Lower(first) && Lower(row.lastName) == Lower(last)
  }

  predicate HasMatch(rows: seq<ContactRow>, first: string, last: string) {
    exists row :: row in rows && RowMatches(row, first, last)
  }

  /** `cursor.fetchone()` after the query: some row satisfying the WHERE
      clause, or `None` when no row does. The model returns the first such
      row in the order the database yields them; that order is not fixed. */
  function FetchOne(rows: seq<ContactRow>, first: string, last: string): (r: Option<ContactRow>)
    ensures r.Some? ==> r.value in rows && RowMatches(r.value, first, last)
    ensures r.None? <==> !HasMatch(rows, first, last)
  {
    if rows == [] then None
    else if RowMatches(rows[0], first, last) then Some(rows[0])
    else
      var r := FetchOne(rows[1..], first, last);
      assert forall row :: row in rows ==> row == rows[0] || row in rows[1..];
      r
  }

  /** The name is a string that splits into a pair some stored row matches. */
  predicate Known(name: JsonValue, store: Store) {
    && name.JString?
    && store.Serving?
    && NameParts(name.s).Some?
    && HasMatch(store.rows, NameParts(name.s).value.0, NameParts(name.s).value.1)
  }

  /** Lines 98-137 before the collapse in the exception handler. A falsy
      name returns at once; a connection that cannot be opened, or a name
      that is not a string (its `strip` raises), fails the lookup; a name
      without tokens returns before the query; a failing query fails the
      lookup; otherwise the fetched row decides. */
  function LookupContact(name: JsonValue, store: Store): (r: Lookup)
    ensures r.Matched? <==> Known(name, store)
    ensures r.Matched? ==> exists row :: row in store.rows && RowMatches(row, NameParts(name.s).value.0, NameParts(name.s).value.1) && r.company == row.companyName
    ensures r.LookupFailed? ==> Truthy(name) && (!store.Serving? || !name.JString?)
  {
    if !Truthy(name) then NotMatched
    else if store.Unreachable? then LookupFailed
    else if !name.JString? then LookupFailed
    else match NameParts(name.s)
      case None => NotMatched
      case Some((first, last)) =>
        if store.Broken? then LookupFailed
        else match FetchOne(store.rows, first, last)
          case Some(row) => Matched(row.companyName)
          case None => NotMatched
  }

  /** `check_contact_in_database`: `(found, company)`. Found exactly when a
      stored row matches the split name, with that row's company; not found
      never carries a company; a failing store never raises but reads as
      not found. */
  function CheckContact(name: JsonValue, store: Store): (r: (bool, Option<string>))
    ensures r.0 <==> Known(name, store)
    ensures r.0 ==> exists row :: row in store.rows && RowMatches(row, NameParts(name.s).value.0, NameParts(name.s).value.1) && r.1 == row.companyName
    ensures !r.0 ==> r.1 == None
    ensures !store.Serving? ==> r == (false, None)
  {
    match LookupContact(name, store)
    case Matched(company) => (true, company)
    case _ => (false, None)
  }

  /** Lines 99-100: a `None` or empty name is not found whatever the store
      holds, even when the store cannot be reached, so no connection is
      attempted for it. */
  lemma NullOrEmptyNameShortCircuits(name: JsonValue, store: Store)
    requires name == JNull || name == JString("")
    ensures LookupContact(name, store) == NotMatched
    ensures CheckContact(name, store) == (false, None)
  {
  }

  /** Lines 107 and 113-114: a non-empty name made only of whitespace is not
      found, and the result does not depend on the rows or on whether the
      query would fail, so the query is never run. */
  lemma WhitespaceOnlyNameSkipsQuery(name: string, rows: seq<ContactRow>)
    requires name != [] && AllSpace(name)
    ensures LookupContact(JString(name), Serving(rows)) == NotMatched
    ensures LookupContact(JString(name), Broken) == NotMatched
    ensures CheckContact(JString(name), Serving(rows)) == (false, None)
  {
  }

  /** Lines 117-131: a stored contact whose names are any letter-casing of
      the split name is found, and the company reported is that of some
      matching row. */
  lemma AnyCasingIsFound(name: string, rows: seq<ContactRow>, row: ContactRow)
    requires NameParts(name).Some?
    requires row in rows
    requires IsRecasing(NameParts(name).value.0, row.firstName)
    requires IsRecasing(NameParts(name).value.1, row.lastName)
    ensures CheckContact(JString(name), Serving(rows)).0
  {
    RecasingKeepsLower(NameParts(name).value.0, row.firstName);
    RecasingKeepsLower(NameParts(name).value.1, row.lastName);
    assert RowMatches(row, NameParts(name).value.0, NameParts(name).value.1);
  }

  /** Lines 110-112: a one-token name is looked up with an empty last name,
      so it finds a stored contact with that first name (in any casing) and
      an empty last name. */
  lemma SingleTokenMatchesEmptyLastName(name: string, rows: seq<ContactRow>, row: ContactRow)
    requires Strip(name) != [] && NoSpace(Strip(name))
    requires row in rows && row.lastName == [] && Lower(row.firstName) == Lower(Strip(name))
    ensures NameParts(name) == Some((Strip(name), []))
    ensures CheckContact(JString(name), Serving(rows)) == (true, FetchOne(rows, Strip(name), []).value.companyName)
  {
    NamePartsCharacterized(name, Strip(name), []);
    assert RowMatches(row, Strip(name), []);
  }

  /** Lines 117-125 have no ORDER BY, so the row order is the database's
      choice. Reordering the stored rows changes nothing as long as all the
      rows matching the name agree on the company (in particular when at
      most one row matches). */
  lemma RowOrderIrrelevantWhenMatchesAgree(name: JsonValue, rows1: seq<ContactRow>, rows2: seq<ContactRow>)
    requires multiset(rows1) == multiset(rows2)
    requires name.JString? && NameParts(name.s).Some?
    requires forall a, b :: a in rows1 && b in rows1
               && RowMatches(a, NameParts(name.s).value.0, NameParts(name.s).value.1)
               && RowMatches(b, NameParts(name.s).value.0, NameParts(name.s).value.1)
               ==> a.companyName == b.companyName
    ensures CheckContact(name, Serving(rows1)) == CheckContact(name, Serving(rows2))
  {
    forall row ensures row in rows1 <==> row in rows2 {
      assert row in rows1 <==> row in multiset(rows1);
      assert row in rows2 <==> row in multiset(rows2);
    }
  }
}
