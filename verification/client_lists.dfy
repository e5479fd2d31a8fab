/**
 * What every management page does to its list of rows: the name search,
 * the name lookup that turns a typed name into an id, the multi-select
 * toggle, and the local list updates after a successful add, edit or delete.
 */
module ClientLists {
  import opened Wrappers
  import opened Text

  // ---------------------------------------------------------------------
  // Search
  // ---------------------------------------------------------------------

  /** The search term: the query trimmed, then lower-cased. */
  function SearchTerm(query: string): string {
    ToLower(Trim(query))
  }

  /** The rows whose lower-cased name contains `term`, in list order. */
  function Matching<T>(items: seq<T>, term: string, name: T -> string): seq<T>
    decreases |items|
  {
    if |items| == 0 then []
    else (if Contains(ToLower(name(items[0])), term) then [items[0]] else []) + Matching(items[1..], term, name)
  }

  /** The rows shown for a query: all of them for a blank query, otherwise the matching ones. */
  function Search<T>(items: seq<T>, query: string, name: T -> string): (r: seq<T>)
    ensures SearchTerm(query) == "" ==> r == items
  {
    var term := SearchTerm(query);
    if term == "" then items else Matching(items, term, name)
  }

  /** A row is kept exactly when it is in the list and its lower-cased name contains the term. */
  lemma {:induction false} MatchingMembers<T>(items: seq<T>, term: string, name: T -> string, x: T)
    ensures x in Matching(items, term, name) <==> x in items && Contains(ToLower(name(x)), term)
    decreases |items|
  {
    if |items| > 0 {
      MatchingMembers(items[1..], term, name, x);
      assert items == [items[0]] + items[1..];
    }
  }

  /** The filter keeps list order: filtering a concatenation concatenates the filtered parts. */
  lemma {:induction false} MatchingKeepsOrder<T>(a: seq<T>, b: seq<T>, term: string, name: T -> string)
    ensures Matching(a + b, term, name) == Matching(a, term, name) + Matching(b, term, name)
    decreases |a|
  {
    if |a| > 0 {
      assert (a + b)[1..] == a[1..] + b;
      MatchingKeepsOrder(a[1..], b, term, name);
    } else {
      assert a + b == b;
    }
  }

  /** Lower-casing is pointwise, so it commutes with taking a slice. */
  lemma ToLowerSlice(s: string, i: nat, j: nat)
    requires i <= j <= |s|
    ensures ToLower(s)[i..j] == ToLower(s[i..j])
  {
  }

  /** The trimmed text sits inside the text at some offset. */
  lemma TrimIsSlice(s: string) returns (k: nat)
    ensures k + |Trim(s)| <= |s| && s[k..k + |Trim(s)|] == Trim(s)
  {
    var a := TrimStart(s);
    k := |s| - |a|;
    assert Trim(s) == a[..|Trim(s)|];
    assert a[..|Trim(s)|] == s[k..k + |Trim(s)|];
  }

  /** Searching for a row's own name, in any surrounding white space, always shows that row. */
  lemma OwnNameFindsRow<T>(items: seq<T>, name: T -> string, x: T)
    requires x in items
    ensures x in Search(items, name(x), name)
  {
    var term := SearchTerm(name(x));
    if term != "" {
      var s := name(x);
      var k := TrimIsSlice(s);
      ToLowerSlice(s, k, k + |Trim(s)|);
      assert OccursAt(ToLower(s), term, k);
      ContainsIffOccurs(ToLower(s), term);
      MatchingMembers(items, term, name, x);
    }
  }

  // ---------------------------------------------------------------------
  // Looking a row up by its typed name
  // ---------------------------------------------------------------------

  /** The first row whose lower-cased name equals `term`. */
  function FirstNamed<T(==,!new)>(items: seq<T>, term: string, name: T -> string): (r: Option<T>)
    ensures r.Some? ==> r.value in items && ToLower(name(r.value)) == term
    ensures r.None? <==> forall x :: x in items ==> ToLower(name(x)) != term
    ensures r.Some? ==> exists i :: (0 <= i < |items| && items[i] == r.value &&
      forall j :: 0 <= j < i ==> ToLower(name(items[j])) != term)
    decreases |items|
  {
    if |items| == 0 then None
    else if ToLower(name(items[0])) == term then
      assert items[0] == items[0];
      Some(items[0])
    else
      var r := FirstNamed(items[1..], term, name);
      if r.Some? then
        var i :| 0 <= i < |items[1..]| && items[1..][i] == r.value &&
          forall j :: 0 <= j < i ==> ToLower(name(items[1..][j])) != term;
        assert items[i + 1] == r.value;
        r
      else
        assert forall x :: x in items ==> x == items[0] || x in items[1..];
        r
  }

  /**
   * `list.find(x => x.name.toLowerCase() === typed.trim().toLowerCase())`:
   * the typed text is trimmed but the stored names are not.
   */
  function MatchByName<T(==,!new)>(items: seq<T>, typed: string, name: T -> string): (r: Option<T>)
    ensures r.Some? ==> r.value in items && ToLower(name(r.value)) == SearchTerm(typed)
    ensures r.None? <==> forall x :: x in items ==> ToLower(name(x)) != SearchTerm(typed)
  {
    FirstNamed(items, SearchTerm(typed), name)
  }

  lemma LowerCharKeepsSpace(c: char)
    ensures IsJsSpace(LowerChar(c)) <==> IsJsSpace(c)
  {
  }

  /** A stored name that begins with white space can never be picked, whatever is typed. */
  lemma PaddedNameNeverMatches<T(!new)>(items: seq<T>, typed: string, name: T -> string, x: T)
    requires |name(x)| > 0 && IsJsSpace(name(x)[0])
    ensures MatchByName(items, typed, name) != Some(x)
  {
    var term := SearchTerm(typed);
    var t := Trim(typed);
    LowerCharKeepsSpace(name(x)[0]);
    if |t| > 0 {
      LowerCharKeepsSpace(t[0]);
      assert !IsJsSpace(term[0]);
    }
    assert ToLower(name(x))[0] == LowerChar(name(x)[0]);
    assert ToLower(name(x)) != term;
  }

  // ---------------------------------------------------------------------
  // List updates
  // ---------------------------------------------------------------------

  /** `list.filter(x => key(x) !== id)`. */
  function Without<T(!new)>(xs: seq<T>, id: int, key: T -> int): (r: seq<T>)
    ensures forall y :: y in r <==> y in xs && key(y) != id
    ensures |r| <= |xs|
    ensures (forall y :: y in xs ==> key(y) != id) ==> r == xs
    decreases |xs|
  {
    if |xs| == 0 then []
    else
      var rest := Without(xs[1..], id, key);
      assert forall y :: y in xs <==> y == xs[0] || y in xs[1..];
      if key(xs[0]) != id then [xs[0]] + rest else rest
  }

  /** Removing by id keeps list order: filtering a concatenation concatenates the filtered parts. */
  lemma {:induction false} WithoutConcat<T(!new)>(a: seq<T>, b: seq<T>, id: int, key: T -> int)
    ensures Without(a + b, id, key) == Without(a, id, key) + Without(b, id, key)
    decreases |a|
  {
    if |a| > 0 {
      assert (a + b)[1..] == a[1..] + b;
      WithoutConcat(a[1..], b, id, key);
    } else {
      assert a + b == b;
    }
  }

  /** `list.map(x => key(x) === id ? updated : x)`. */
  function ReplaceById<T>(xs: seq<T>, id: int, updated: T, key: T -> int): (r: seq<T>)
    ensures |r| == |xs|
    ensures forall i :: 0 <= i < |xs| && key(xs[i]) != id ==> r[i] == xs[i]
    ensures forall i :: 0 <= i < |xs| && key(xs[i]) == id ==> r[i] == updated
  {
    seq(|xs|, i requires 0 <= i < |xs| => if key(xs[i]) == id then updated else xs[i])
  }

  /** An edit touches no other row: apart from the edited id, the list is what it was. */
  lemma {:induction false} ReplaceTouchesNothingElse<T(!new)>(xs: seq<T>, id: int, updated: T, key: T -> int)
    requires key(updated) == id
    ensures Without(ReplaceById(xs, id, updated, key), id, key) == Without(xs, id, key)
    decreases |xs|
  {
    if |xs| > 0 {
      var r := ReplaceById(xs, id, updated, key);
      var tail := ReplaceById(xs[1..], id, updated, key);
      assert r[1..] == tail;
      ReplaceTouchesNothingElse(xs[1..], id, updated, key);
      if key(xs[0]) == id {
        assert Without(r, id, key) == Without(tail, id, key);
        assert Without(xs, id, key) == Without(xs[1..], id, key);
      } else {
        assert Without(r, id, key) == [xs[0]] + Without(tail, id, key);
        assert Without(xs, id, key) == [xs[0]] + Without(xs[1..], id, key);
      }
    }
  }

  /** Adding a row with a fresh id and then deleting it gives back the original list. */
  lemma AddThenDeleteRestores<T(!new)>(xs: seq<T>, added: T, key: T -> int)
    requires forall y :: y in xs ==> key(y) != key(added)
    ensures Without(xs + [added], key(added), key) == xs
  {
    WithoutConcat(xs, [added], key(added), key);
  }

  // ---------------------------------------------------------------------
  // Multi-select
  // ---------------------------------------------------------------------

  function Id(i: int): int { i }

  /**
   * `handleSelectClub`: a checked item, or one already selected, is
   * removed (every copy); any other id is appended.
   */
  function Toggle(selected: seq<int>, id: int, isChecked: bool): (r: seq<int>)
    ensures id in r <==> !isChecked && id !in selected
    ensures forall x :: x != id ==> (x in r <==> x in selected)
  {
    if isChecked || id in selected then Without(selected, id, Id) else selected + [id]
  }

  /** Clicking an unselected item twice restores the selection. */
  lemma ToggleTwiceRestores(selected: seq<int>, id: int)
    requires id !in selected
    ensures Toggle(Toggle(selected, id, false), id, false) == selected
  {
    assert id in selected + [id];
    AddThenDeleteRestores(selected, id, Id);
  }
}
