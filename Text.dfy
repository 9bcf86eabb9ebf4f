/** Space-separated text: the separator convention of the catalog's `features`
    column and of the recommendation query. `Split` is a reference reading
    (Python's `str.split(' ')`, which keeps empty fields) used to show that
    joining the fields with single spaces loses nothing. */
module Text {

  const SPACE: char := ' '

  /** The fields joined with one space between neighbours. */
  function Join(fields: seq<string>): string
    requires |fields| >= 1
  {
    if |fields| == 1 then fields[0] else fields[0] + [SPACE] + Join(fields[1..])
  }

  /** The text cut at every space; `n` spaces give `n + 1` fields. */
  function Split(s: string): (fields: seq<string>)
    ensures |fields| >= 1
    decreases |s|
  {
    if s == [] then [[]]
    else if s[0] == SPACE then [[]] + Split(s[1..])
    else
      var rest := Split(s[1..]);
      [[s[0]] + rest[0]] + rest[1..]
  }

  predicate NoSpace(w: string)
  {
    forall i :: 0 <= i < |w| ==> w[i] != SPACE
  }

  /** A word without spaces is one field. */
  lemma {:induction false} SplitWord(w: string)
    requires NoSpace(w)
    ensures Split(w) == [w]
    decreases |w|
  {
    if w != [] {
      SplitWord(w[1..]);
      assert [w[0]] + w[1..] == w;
    }
  }

  /** A space-free word followed by a space and more text gives that word,
      then the fields of the rest. */
  lemma {:induction false} SplitWordThen(w: string, rest: string)
    requires NoSpace(w)
    ensures Split(w + [SPACE] + rest) == [w] + Split(rest)
    decreases |w|
  {
    if w == [] {
      assert w + [SPACE] + rest == [SPACE] + rest;
      assert ([SPACE] + rest)[1..] == rest;
    } else {
      var s := w + [SPACE] + rest;
      assert s[0] == w[0];
      assert s[1..] == w[1..] + [SPACE] + rest;
      SplitWordThen(w[1..], rest);
      assert [w[0]] + w[1..] == w;
    }
  }

  /** Joining space-free fields with single spaces and splitting at spaces
      gives the fields back, in order. */
  lemma {:induction false} SplitJoin(fields: seq<string>)
    requires |fields| >= 1
    requires forall k :: 0 <= k < |fields| ==> NoSpace(fields[k])
    ensures Split(Join(fields)) == fields
    decreases |fields|
  {
    if |fields| == 1 {
      SplitWord(fields[0]);
    } else {
      SplitJoin(fields[1..]);
      SplitWordThen(fields[0], Join(fields[1..]));
      assert [fields[0]] + fields[1..] == fields;
    }
  }
}
