/**
 * `String.prototype.split` for a one-character separator and its inverse `join`,
 * the two operations the bearer-token extraction rests on.
 */
module Fields {
  import opened Text

  // ---------------------------------------------------------------------
  // split(' ')
  // ---------------------------------------------------------------------

  /** `s.split(sep)` for a one-character separator: the fields between separators. */
  function Split(s: string, sep: char): (fields: seq<string>)
    ensures |fields| >= 1
    ensures forall k :: 0 <= k < |fields| ==> sep !in fields[k]
    ensures sep !in s <==> |fields| == 1
    decreases |s|
  {
    var i := IndexOf(s, sep);
    if i == -1 then [s] else [s[..i]] + Split(s[i + 1..], sep)
  }

  /** Rejoins fields with the separator: `fields.join(sep)`. */
  function Join(fields: seq<string>, sep: char): string
    requires |fields| >= 1
  {
    if |fields| == 1 then fields[0] else fields[0] + [sep] + Join(fields[1..], sep)
  }

  lemma JoinCons(f: string, fs: seq<string>, sep: char)
    requires |fs| >= 1
    ensures Join([f] + fs, sep) == f + [sep] + Join(fs, sep)
  {
    assert ([f] + fs)[1..] == fs;
  }

  /** Splitting loses nothing: joining the fields gives back the text. */
  lemma {:induction false} SplitJoin(s: string, sep: char)
    ensures Join(Split(s, sep), sep) == s
    decreases |s|
  {
    var i := IndexOf(s, sep);
    if i == -1 {
      assert Split(s, sep) == [s];
    } else {
      var rest := s[i + 1..];
      var f := Split(rest, sep);
      assert Split(s, sep) == [s[..i]] + f;
      JoinCons(s[..i], f, sep);
      assert Join(Split(s, sep), sep) == s[..i] + [sep] + Join(f, sep);
      SplitJoin(rest, sep);
      CutAround(s, i);
    }
  }

  /** A text is the part before position `i`, the character at `i`, and the part after. */
  lemma CutAround<T>(s: seq<T>, i: nat)
    requires i < |s|
    ensures s[..i] + [s[i]] + s[i + 1..] == s
  {
    assert s[..i] + [s[i]] == s[..i + 1];
  }

  /** The first field is the text up to the first separator. */
  lemma SplitFirst(s: string, sep: char)
    ensures sep in s ==> Split(s, sep)[0] == s[..IndexOf(s, sep)]
    ensures sep !in s ==> Split(s, sep) == [s]
  {
  }

  /** The second field runs from after the first separator to the next one. */
  lemma SplitSecond(s: string, sep: char)
    requires sep in s
    ensures var i := IndexOf(s, sep);
            var rest := s[i + 1..];
            Split(s, sep)[1] == (if sep in rest then rest[..IndexOf(rest, sep)] else rest)
  {
  }
}
