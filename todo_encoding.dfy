/**
 * The preference encoding of the todo snapshot: each of the lists `todo_titles`,
 * `todo_ids` and `todo_completed` is stored as one string whose entries are joined
 * with the literal three-character separator "|||".  The widget decodes them with
 * Kotlin's `String.split("|||")`, which scans left to right, cuts at every
 * non-overlapping occurrence of the separator and keeps empty pieces (also a
 * trailing one), except that an empty preference string decodes to no entries.
 */
module TodoEncoding {

  const Delim: string := "|||"

  /** Kotlin `s.split("|||")`: at least one piece, cut at the leftmost separator first. */
  function Split(s: string): (r: seq<string>)
    ensures |r| >= 1
    decreases |s|
  {
    if |s| < |Delim| then [s]
    else if s[..|Delim|] == Delim then [""] + Split(s[|Delim|..])
    else
      var rest := Split(s[1..]);
      [[s[0]] + rest[0]] + rest[1..]
  }

  /** Kotlin `xs.joinToString("|||")`: how the application writes a list into a preference. */
  function Join(xs: seq<string>): (r: string)
    decreases |xs|
  {
    if |xs| == 0 then ""
    else if |xs| == 1 then xs[0]
    else xs[0] + Delim + Join(xs[1..])
  }

  /** How the widget reads one list preference: no entries for the empty string, the split otherwise. */
  function Decode(s: string): (r: seq<string>)
    ensures r == [] <==> s == ""
  {
    if s != "" then Split(s) else []
  }

  /** A piece that cannot be mistaken for, or merge with, a separator. */
  predicate BarFree(x: string)
  {
    forall k :: 0 <= k < |x| ==> x[k] != '|'
  }

  /** Joining the pieces of a split gives back the split string: no character is lost or added. */
  lemma {:induction false} JoinSplit(s: string)
    ensures Join(Split(s)) == s
    decreases |s|
  {
    if |s| < |Delim| {
    } else if s[..|Delim|] == Delim {
      JoinSplit(s[|Delim|..]);
      assert Split(s) == [""] + Split(s[|Delim|..]);
      assert s == Delim + s[|Delim|..];
    } else {
      var rest := Split(s[1..]);
      JoinSplit(s[1..]);
      var r := [[s[0]] + rest[0]] + rest[1..];
      assert Split(s) == r;
      if |rest| == 1 {
        assert Join(r) == [s[0]] + rest[0];
      } else {
        assert r[1..] == rest[1..];
        assert Join(r) == [s[0]] + rest[0] + Delim + Join(rest[1..]);
        assert Join(rest) == rest[0] + Delim + Join(rest[1..]);
      }
      assert s == [s[0]] + s[1..];
    }
  }

  /** A non-empty preference string decodes to at least one entry, and the entries join back to it. */
  lemma DecodeNonEmpty(s: string)
    requires s != ""
    ensures |Decode(s)| >= 1
    ensures Join(Decode(s)) == s
  {
    JoinSplit(s);
  }

  /** `x` holds the separator starting at position `j`. */
  predicate DelimAt(x: string, j: int)
  {
    0 <= j && j + |Delim| <= |x| && x[j..j + |Delim|] == Delim
  }

  /** The first piece of a split is a prefix of the split string. */
  lemma {:induction false} SplitFirstIsPrefix(s: string)
    ensures Split(s)[0] <= s
    decreases |s|
  {
    if |s| >= |Delim| && s[..|Delim|] != Delim {
      SplitFirstIsPrefix(s[1..]);
      assert s == [s[0]] + s[1..];
    }
  }

  /** `x` contains no occurrence of the separator. */
  predicate DelimFree(x: string)
  {
    forall j :: 0 <= j <= |x| ==> !DelimAt(x, j)
  }

  /** Prepending a character that does not start a separator to a separator-free piece keeps it so. */
  lemma ConsDelimFree(c: char, p: string, s: string)
    requires [c] + p <= s && !DelimAt(s, 0)
    requires DelimFree(p)
    ensures DelimFree([c] + p)
  {
    var head := [c] + p;
    forall j | 0 <= j <= |head| ensures !DelimAt(head, j) {
      if j > 0 && DelimAt(head, j) {
        assert head[1..] == p;
        assert head[j..j + |Delim|] == head[1..][j - 1..j - 1 + |Delim|];
        assert DelimAt(p, j - 1);
      }
    }
  }

  /** Every occurrence of the separator is cut: no piece of a split still contains one. */
  lemma {:induction false} SplitPiecesDelimFree(s: string)
    ensures forall k :: 0 <= k < |Split(s)| ==> DelimFree(Split(s)[k])
    decreases |s|
  {
    if |s| < |Delim| {
      assert forall j :: 0 <= j <= |s| ==> !DelimAt(s, j);
    } else if s[..|Delim|] == Delim {
      SplitPiecesDelimFree(s[|Delim|..]);
      var r := Split(s);
      assert r == [""] + Split(s[|Delim|..]);
      forall k | 0 <= k < |r| ensures DelimFree(r[k]) {
        if k > 0 { assert r[k] == Split(s[|Delim|..])[k - 1]; }
      }
    } else {
      var rest := Split(s[1..]);
      SplitPiecesDelimFree(s[1..]);
      SplitFirstIsPrefix(s[1..]);
      assert [s[0]] + rest[0] <= s by { assert s == [s[0]] + s[1..]; }
      ConsDelimFree(s[0], rest[0], s);
      var r := [[s[0]] + rest[0]] + rest[1..];
      assert Split(s) == r;
      forall k | 0 < k < |r| ensures DelimFree(r[k]) {
        assert r[k] == rest[k];
      }
    }
  }

  /** `x` is not empty and its last character is '|'. */
  predicate EndsInBar(x: string)
  {
    |x| >= 1 && x[|x| - 1] == '|'
  }

  /** A split whose first piece is empty and is not the only one starts with the separator. */
  lemma SplitEmptyHead(t: string)
    requires |Split(t)| > 1 && Split(t)[0] == ""
    ensures |t| >= |Delim| && t[..|Delim|] == Delim
  {
  }

  /**
   * The leftmost cut: no piece but the last ends in '|', because such a '|' and the
   * first two characters of the separator after it would have formed an earlier one.
   */
  lemma {:induction false} SplitLeftmost(s: string)
    ensures forall k :: 0 <= k < |Split(s)| - 1 ==> !EndsInBar(Split(s)[k])
    decreases |s|
  {
    if |s| < |Delim| {
    } else if s[..|Delim|] == Delim {
      SplitLeftmost(s[|Delim|..]);
      var r := Split(s);
      assert r == [""] + Split(s[|Delim|..]);
      forall k | 0 < k < |r| - 1 ensures !EndsInBar(r[k]) {
        assert r[k] == Split(s[|Delim|..])[k - 1];
      }
    } else {
      var t := s[1..];
      var rest := Split(t);
      SplitLeftmost(t);
      var r := [[s[0]] + rest[0]] + rest[1..];
      assert Split(s) == r;
      if |rest| > 1 && rest[0] == "" {
        SplitEmptyHead(t);
        assert s[..|Delim|] == [s[0]] + t[..|Delim| - 1];
      }
      forall k | 0 < k < |r| - 1 ensures !EndsInBar(r[k]) {
        assert r[k] == rest[k];
      }
    }
  }

  /**
   * The entries that survive a round trip through the encoding: none holds the
   * separator, and none but the last ends in '|'.
   */
  predicate Separable(xs: seq<string>)
  {
    (forall k :: 0 <= k < |xs| ==> DelimFree(xs[k]))
    && (forall k :: 0 <= k < |xs| - 1 ==> !EndsInBar(xs[k]))
  }

  /** The pieces of every split are separable. */
  lemma SplitSeparable(s: string)
    ensures Separable(Split(s))
  {
    SplitPiecesDelimFree(s);
    SplitLeftmost(s);
  }

  /** Dropping the first character of a separator-free string keeps it separator-free. */
  lemma DelimFreeTail(x: string)
    requires |x| >= 1 && DelimFree(x)
    ensures DelimFree(x[1..])
  {
    var t := x[1..];
    forall j | 0 <= j <= |t| ensures !DelimAt(t, j) {
      if j + |Delim| <= |t| {
        assert x[j + 1..j + 1 + |Delim|] == t[j..j + |Delim|];
        assert !DelimAt(x, j + 1);
      }
    }
  }

  /** A string without the separator is left whole. */
  lemma {:induction false} SplitDelimFree(x: string)
    requires DelimFree(x)
    ensures Split(x) == [x]
    decreases |x|
  {
    if |x| >= |Delim| {
      assert !DelimAt(x, 0);
      DelimFreeTail(x);
      SplitDelimFree(x[1..]);
      assert x == [x[0]] + x[1..];
    }
  }

  /**
   * No separator starts at the front of a separable, non-empty entry followed by
   * anything: a short entry would have to end in '|' for one to start there.
   */
  lemma NoDelimAtEntryStart(x: string, u: string)
    requires |x| >= 1 && DelimFree(x) && !EndsInBar(x)
    requires |x + u| >= |Delim|
    ensures (x + u)[..|Delim|] != Delim
  {
    var s := x + u;
    if |x| >= |Delim| {
      assert s[..|Delim|] == x[..|Delim|];
      assert !DelimAt(x, 0);
    } else {
      assert s[..|Delim|][|x| - 1] == x[|x| - 1] != '|';
      assert Delim[|x| - 1] == '|';
    }
  }

  /** A separable first entry is cut off exactly at the separator that follows it. */
  lemma {:induction false} SplitEntryThenDelim(x: string, t: string)
    requires DelimFree(x) && !EndsInBar(x)
    ensures Split(x + Delim + t) == [x] + Split(t)
    decreases |x|
  {
    var s := x + Delim + t;
    if |x| == 0 {
      assert s == Delim + t;
      assert s[..|Delim|] == Delim && s[|Delim|..] == t;
    } else {
      NoDelimAtEntryStart(x, Delim + t);
      assert x + (Delim + t) == s;
      var y := x[1..];
      DelimFreeTail(x);
      assert !EndsInBar(y) by {
        if |y| >= 1 { assert y[|y| - 1] == x[|x| - 1]; }
      }
      SplitEntryThenDelim(y, t);
      assert s[1..] == y + Delim + t;
      assert [s[0]] + y == x;
    }
  }

  /** Splitting what was joined from separable entries gives the entries back. */
  lemma {:induction false} SplitJoin(xs: seq<string>)
    requires |xs| >= 1 && Separable(xs)
    ensures Split(Join(xs)) == xs
    decreases |xs|
  {
    if |xs| == 1 {
      SplitDelimFree(xs[0]);
    } else {
      assert Separable(xs[1..]) by {
        forall k | 0 <= k < |xs| - 1 ensures DelimFree(xs[1..][k]) {
          assert xs[1..][k] == xs[k + 1];
        }
        forall k | 0 <= k < |xs| - 2 ensures !EndsInBar(xs[1..][k]) {
          assert xs[1..][k] == xs[k + 1];
        }
      }
      SplitJoin(xs[1..]);
      SplitEntryThenDelim(xs[0], Join(xs[1..]));
      assert xs == [xs[0]] + xs[1..];
    }
  }

  /**
   * Separability is exactly what a round trip needs: a list whose join splits back
   * into it is separable, and (by `SplitJoin`) a separable list does.  So the split
   * of a string is the one separable list of pieces that joins to it.
   */
  lemma SplitUnique(s: string, xs: seq<string>)
    requires |xs| >= 1 && Join(xs) == s
    ensures xs == Split(s) <==> Separable(xs)
  {
    SplitSeparable(s);
    if Separable(xs) {
      SplitJoin(xs);
    }
  }

  /**
   * The round trip through the preference store: a list of separable entries is
   * decoded as written, except the one-entry list [""], which is stored as the
   * empty string and therefore read back as no entries.
   */
  lemma DecodeJoin(xs: seq<string>)
    requires Separable(xs)
    ensures Decode(Join(xs)) == (if xs == [""] then [] else xs)
  {
    if |xs| >= 2 {
      assert |Join(xs)| >= |Delim|;
    }
    if |xs| >= 1 {
      SplitJoin(xs);
    }
  }

  /**
   * An entry holding the separator is stored exactly like the two entries around
   * it, and is read back as those two: the encoding cannot carry such an entry.
   */
  lemma EntryWithDelimSplits(a: string, b: string)
    requires DelimFree(a) && !EndsInBar(a) && DelimFree(b)
    ensures Join([a + Delim + b]) == Join([a, b])
    ensures Decode(Join([a + Delim + b])) == [a, b]
  {
    assert [a, b][1..] == [b];
    assert Join([a, b]) == a + Delim + Join([b]);
    SplitEntryThenDelim(a, b);
    SplitDelimFree(b);
  }

  /** An entry without any '|' is separable wherever it stands. */
  lemma BarFreeSeparable(x: string)
    requires BarFree(x)
    ensures DelimFree(x) && !EndsInBar(x)
  {
    forall j | 0 <= j <= |x| ensures !DelimAt(x, j) {
      if j + |Delim| <= |x| {
        assert x[j..j + |Delim|][0] == x[j];
      }
    }
  }
}
