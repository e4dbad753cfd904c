/** Python's `s.replace(old, new)` for a non-empty `old`: scan left to right,
    replace each occurrence found, and resume after it. */
module Replace {
  import opened Strings

  /** `pat` occurs in `s` starting at index `i`. */
  predicate At(s: string, pat: string, i: nat)
  {
    i + |pat| <= |s| && s[i..i + |pat|] == pat
  }

  predicate Occurs(s: string, pat: string)
  {
    exists i: nat :: i <= |s| && At(s, pat, i)
  }

  function ReplaceAll(s: string, pat: string, rep: string): string
    requires |pat| > 0
    decreases |s|
  {
    if |s| < |pat| then s
    else if s[..|pat|] == pat then rep + ReplaceAll(s[|pat|..], pat, rep)
    else [s[0]] + ReplaceAll(s[1..], pat, rep)
  }

  /** The same scan, cutting `s` at each occurrence it replaces: the texts
      between replaced occurrences, in order. */
  function Split(s: string, pat: string): (r: seq<string>)
    requires |pat| > 0
    ensures |r| > 0
    decreases |s|
  {
    if |s| < |pat| then [s]
    else if s[..|pat|] == pat then [[]] + Split(s[|pat|..], pat)
    else
      var rest := Split(s[1..], pat);
      [[s[0]] + rest[0]] + rest[1..]
  }

  /** The number of occurrences the scan replaces. */
  function Count(s: string, pat: string): nat
    requires |pat| > 0
    decreases |s|
  {
    if |s| < |pat| then 0
    else if s[..|pat|] == pat then 1 + Count(s[|pat|..], pat)
    else Count(s[1..], pat)
  }

  /** Putting one more character in front of the first piece. */
  lemma JoinConsFirst(c: char, pieces: seq<string>, sep: string)
    requires |pieces| > 0
    ensures Join([[c] + pieces[0]] + pieces[1..], sep) == [c] + Join(pieces, sep)
  {
    var ps := [[c] + pieces[0]] + pieces[1..];
    if |pieces| > 1 {
      assert ps[1..] == pieces[1..];
    }
  }

  /** Replacing is splitting at the occurrences and joining with `rep`. */
  lemma {:induction false} ReplaceIsSplitJoin(s: string, pat: string, rep: string)
    requires |pat| > 0
    ensures ReplaceAll(s, pat, rep) == Join(Split(s, pat), rep)
    decreases |s|
  {
    if |s| < |pat| {
    } else if s[..|pat|] == pat {
      ReplaceIsSplitJoin(s[|pat|..], pat, rep);
      var rest := Split(s[|pat|..], pat);
      assert ([[]] + rest)[1..] == rest;
    } else {
      ReplaceIsSplitJoin(s[1..], pat, rep);
      JoinConsFirst(s[0], Split(s[1..], pat), rep);
      assert s == [s[0]] + s[1..];
    }
  }

  /** Replacing every occurrence of `pat` by `pat` itself changes nothing. */
  lemma {:induction false} ReplaceBySelf(s: string, pat: string)
    requires |pat| > 0
    ensures ReplaceAll(s, pat, pat) == s
    decreases |s|
  {
    if |s| < |pat| {
    } else if s[..|pat|] == pat {
      ReplaceBySelf(s[|pat|..], pat);
      assert s == s[..|pat|] + s[|pat|..];
    } else {
      ReplaceBySelf(s[1..], pat);
      assert s == [s[0]] + s[1..];
    }
  }

  /** Joining the pieces with `pat` again gives back `s`: the pieces are
      exactly what lies between the replaced occurrences. */
  lemma SplitJoinRoundTrip(s: string, pat: string)
    requires |pat| > 0
    ensures Join(Split(s, pat), pat) == s
  {
    ReplaceIsSplitJoin(s, pat, pat);
    ReplaceBySelf(s, pat);
  }

  /** There is one more piece than replaced occurrences. */
  lemma {:induction false} SplitCount(s: string, pat: string)
    requires |pat| > 0
    ensures |Split(s, pat)| == Count(s, pat) + 1
    decreases |s|
  {
    if |s| < |pat| {
    } else if s[..|pat|] == pat {
      SplitCount(s[|pat|..], pat);
    } else {
      SplitCount(s[1..], pat);
    }
  }

  /** The first piece is the text up to the first replaced occurrence. */
  lemma {:induction false} SplitFirstIsPrefix(s: string, pat: string)
    requires |pat| > 0
    ensures |Split(s, pat)[0]| <= |s| && Split(s, pat)[0] == s[..|Split(s, pat)[0]|]
    decreases |s|
  {
    if |s| < |pat| {
    } else if s[..|pat|] == pat {
    } else {
      SplitFirstIsPrefix(s[1..], pat);
    }
  }

  /** Every occurrence is cut: no piece still contains `pat`, so nothing is
      left unreplaced. */
  lemma {:induction false} SplitPiecesFree(s: string, pat: string)
    requires |pat| > 0
    ensures forall i :: 0 <= i < |Split(s, pat)| ==> !Occurs(Split(s, pat)[i], pat)
    decreases |s|
  {
    var r := Split(s, pat);
    if |s| < |pat| {
      assert r == [s];
    } else if s[..|pat|] == pat {
      SplitPiecesFree(s[|pat|..], pat);
      assert r == [[]] + Split(s[|pat|..], pat);
      forall i | 0 <= i < |r| ensures !Occurs(r[i], pat) {
        if i > 0 { assert r[i] == Split(s[|pat|..], pat)[i - 1]; }
      }
    } else {
      var rest := Split(s[1..], pat);
      SplitPiecesFree(s[1..], pat);
      SplitFirstIsPrefix(s[1..], pat);
      var p0 := [s[0]] + rest[0];
      assert p0 == s[..|p0|];
      forall i | 0 <= i < |r| ensures !Occurs(r[i], pat) {
        if i == 0 {
          if Occurs(p0, pat) {
            var j: nat :| j <= |p0| && At(p0, pat, j);
            if j == 0 {
              assert false;
            } else {
              assert rest[0][j - 1..j - 1 + |pat|] == p0[j..j + |pat|];
              assert At(rest[0], pat, j - 1);
              assert false;
            }
          }
        } else {
          assert r[i] == rest[i];
        }
      }
    }
  }

  /** Each replaced occurrence trades `|pat|` characters for `|rep|`. */
  lemma ReplaceLength(s: string, pat: string, rep: string)
    requires |pat| > 0
    ensures |ReplaceAll(s, pat, rep)| == |s| + Count(s, pat) * (|rep| - |pat|)
  {
    var pieces := Split(s, pat);
    var n := Count(s, pat);
    ReplaceIsSplitJoin(s, pat, rep);
    SplitJoinRoundTrip(s, pat);
    SplitCount(s, pat);
    JoinLength(pieces, rep);
    JoinLength(pieces, pat);
    assert |ReplaceAll(s, pat, rep)| == TotalLength(pieces) + n * |rep|;
    assert |s| == TotalLength(pieces) + n * |pat|;
    assert n * |rep| == n * |pat| + n * (|rep| - |pat|);
  }

  /** When `pat` does not start `s`, it occurs in `s` exactly when it occurs
      after the first character. */
  lemma OccursAfterFirst(s: string, pat: string)
    requires |s| > 0 && !At(s, pat, 0)
    ensures Occurs(s, pat) <==> Occurs(s[1..], pat)
  {
    var t := s[1..];
    if Occurs(s, pat) {
      var i: nat :| i <= |s| && At(s, pat, i);
      assert i != 0;
      assert t[i - 1..i - 1 + |pat|] == s[i..i + |pat|];
      assert At(t, pat, i - 1);
    }
    if Occurs(t, pat) {
      var i: nat :| i <= |t| && At(t, pat, i);
      assert s[i + 1..i + 1 + |pat|] == t[i..i + |pat|];
      assert At(s, pat, i + 1);
    }
  }

  /** The scan replaces nothing exactly when `pat` does not occur at all. */
  lemma {:induction false} CountZeroIffAbsent(s: string, pat: string)
    requires |pat| > 0
    ensures Count(s, pat) == 0 <==> !Occurs(s, pat)
    decreases |s|
  {
    if |s| < |pat| {
      assert !Occurs(s, pat);
    } else if s[..|pat|] == pat {
      assert At(s, pat, 0);
    } else {
      CountZeroIffAbsent(s[1..], pat);
      OccursAfterFirst(s, pat);
    }
  }

  /** Without an occurrence, replacing returns the text unchanged. */
  lemma {:induction false} ReplaceAbsent(s: string, pat: string, rep: string)
    requires |pat| > 0
    requires !Occurs(s, pat)
    ensures ReplaceAll(s, pat, rep) == s
    decreases |s|
  {
    if |s| >= |pat| {
      assert !At(s, pat, 0);
      OccursAfterFirst(s, pat);
      ReplaceAbsent(s[1..], pat, rep);
      assert s == [s[0]] + s[1..];
    }
  }
}
