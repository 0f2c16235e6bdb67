/**
 * Joining and splitting strings on a separator: Rust's `[String]::join` and
 * `str::split(char)`. Splitting is the inverse used to read rendered
 * documents back into their lines and cells.
 */
module Text {
  import opened Wrappers

  /** `parts` with `sep` between each pair of neighbours (Rust's `join`). */
  function Join(parts: seq<string>, sep: string): string
  {
    if |parts| == 0 then ""
    else if |parts| == 1 then parts[0]
    else parts[0] + sep + Join(parts[1..], sep)
  }

  /**
   * The pieces of `s` between occurrences of `c`, as Rust's `s.split(c)`:
   * there is always one more piece than there are separators, and no piece
   * contains the separator.
   */
  function Split(s: string, c: char): (r: seq<string>)
    ensures |r| >= 1
    decreases |s|
  {
    if |s| == 0 then [""] else Prepend(s[0], Split(s[1..], c), c)
  }

  /** The pieces of `[ch] + s`, given the pieces of `s`. */
  function Prepend(ch: char, pieces: seq<string>, c: char): (r: seq<string>)
    requires |pieces| >= 1
    ensures |r| >= 1
  {
    if ch == c then [""] + pieces
    else [[ch] + pieces[0]] + pieces[1..]
  }

  /** The last element of a non-empty sequence. */
  function Last<T>(xs: seq<T>): T
    requires |xs| > 0
  {
    xs[|xs| - 1]
  }

  /** A non-empty sequence is its front followed by its last element. */
  lemma FrontLast<T>(xs: seq<T>)
    requires |xs| > 0
    ensures xs[..|xs| - 1] + [Last(xs)] == xs
  {
  }

  /** The front and last element of a sequence extended by one element. */
  lemma SnocFrontLast<T>(xs: seq<T>, x: T)
    ensures (xs + [x])[..|xs|] == xs && Last(xs + [x]) == x
  {
  }

  /** Concatenation of sequences is associative. */
  lemma SeqAssoc<T>(x: seq<T>, y: seq<T>, z: seq<T>)
    ensures (x + y) + z == x + (y + z)
  {
  }

  /** Two strings concatenate to the empty string exactly when both are empty. */
  lemma ConcatEmpty(x: string, y: string)
    ensures x + y == "" <==> x == "" && y == ""
  {
    if x + y == "" {
      assert |x + y| == |x| + |y|;
    }
  }

  /** Appending the empty string changes nothing. */
  lemma AppendEmpty(x: string, y: string)
    requires y == ""
    ensures x + y == x
  {
  }

  /** Prepending the empty string changes nothing. */
  lemma EmptyAppend(x: string, y: string)
    requires x == ""
    ensures x + y == y
  {
  }

  /** A list of at least three lines, followed by an empty one, as its front and last three lines. */
  lemma LastThree(ls: seq<string>)
    requires |ls| >= 3
    ensures ls + [""] == ls[..|ls| - 3] + [ls[|ls| - 3], ls[|ls| - 2], ls[|ls| - 1], ""]
  {
  }

  /**
   * Two lists of pieces laid end to end, where the last piece of `a` and the
   * first piece of `b` are one piece.
   */
  function Fuse(a: seq<string>, b: seq<string>): (r: seq<string>)
    requires |a| >= 1 && |b| >= 1
    ensures |r| == |a| + |b| - 1
  {
    a[..|a| - 1] + [Last(a) + b[0]] + b[1..]
  }

  /** Splitting a concatenation fuses the pieces of either side. */
  lemma {:induction false} SplitConcat(x: string, y: string, c: char)
    ensures Split(x + y, c) == Fuse(Split(x, c), Split(y, c))
    decreases |x|
  {
    var sy := Split(y, c);
    if |x| == 0 {
      assert x + y == y;
      assert Split(x, c) == [""];
      assert "" + sy[0] == sy[0];
      assert [sy[0]] + sy[1..] == sy;
    } else {
      SplitConcat(x[1..], y, c);
      assert (x + y)[1..] == x[1..] + y;
      PrependFuse(x[0], Split(x[1..], c), sy, c);
    }
  }

  /** Prepending a character commutes with fusing. */
  lemma PrependFuse(ch: char, a: seq<string>, b: seq<string>, c: char)
    requires |a| >= 1 && |b| >= 1
    ensures Prepend(ch, Fuse(a, b), c) == Fuse(Prepend(ch, a, c), b)
  {
    if ch != c {
      var f, p := Fuse(a, b), Prepend(ch, a, c);
      var mid := [Last(a) + b[0]] + b[1..];
      if |a| == 1 {
        assert p == [[ch] + a[0]];
        assert f == mid;
        SeqAssoc([ch], a[0], b[0]);
      } else {
        var inner := a[1..|a| - 1];
        assert a[..|a| - 1] == [a[0]] + inner;
        assert f == [a[0]] + (inner + mid);
        assert p[..|p| - 1] == [[ch] + a[0]] + inner;
        assert Last(p) == Last(a);
        SeqAssoc([[ch] + a[0]], inner, mid);
        SeqAssoc([[ch] + a[0]] + inner, [Last(a) + b[0]], b[1..]);
      }
    }
  }

  /** A separator splits the text into the pieces of either side. */
  lemma SplitAround(x: string, y: string, c: char)
    ensures Split(x + [c] + y, c) == Split(x, c) + Split(y, c)
  {
    var sx, sy := Split(x, c), Split(y, c);
    assert x + [c] + y == x + ([c] + y);
    assert ([c] + y)[1..] == y;
    assert Split([c] + y, c) == [""] + sy;
    SplitConcat(x, [c] + y, c);
    assert (([""] + sy)[1..]) == sy;
    assert Last(sx) + "" == Last(sx);
    assert sx[..|sx| - 1] + [Last(sx)] == sx;
  }

  /** No piece of a split contains the separator. */
  lemma {:induction false} SplitPiecesFree(s: string, c: char)
    ensures forall i :: 0 <= i < |Split(s, c)| ==> c !in Split(s, c)[i]
    decreases |s|
  {
    if |s| > 0 {
      SplitPiecesFree(s[1..], c);
      var rest := Split(s[1..], c);
      if s[0] != c {
        assert forall i :: 1 <= i < |rest| ==> Split(s, c)[i] == rest[i];
      } else {
        assert forall i :: 1 <= i < |Split(s, c)| ==> Split(s, c)[i] == rest[i - 1];
      }
    }
  }

  /** After text that ends with a separator, the pieces of what follows are appended. */
  lemma SplitAfterSeparator(x: string, y: string, lx: seq<string>, c: char)
    requires Split(x, c) == lx + [""]
    ensures Split(x + y, c) == lx + Split(y, c)
  {
    var sx, sy := Split(x, c), Split(y, c);
    SplitConcat(x, y, c);
    FuseAfterEmpty(lx, sy);
  }

  lemma FuseAfterEmpty(lx: seq<string>, sy: seq<string>)
    requires |sy| >= 1
    ensures Fuse(lx + [""], sy) == lx + sy
  {
    var sx := lx + [""];
    assert sx[..|sx| - 1] == lx;
    assert Last(sx) + sy[0] == sy[0];
    assert [sy[0]] + sy[1..] == sy;
  }

  /** Text free of the separator is a single piece. */
  lemma {:induction false} SplitFree(s: string, c: char)
    requires c !in s
    ensures Split(s, c) == [s]
    decreases |s|
  {
    if |s| > 0 {
      assert s[0] in s;
      assert forall x :: x in s[1..] ==> x in s;
      SplitFree(s[1..], c);
      assert [s[0]] + s[1..] == s;
    }
  }

  /** A leading separator splits off an empty first piece. */
  lemma SplitLeadingSeparator(y: string, c: char)
    ensures Split([c] + y, c) == [""] + Split(y, c)
  {
    assert ([c] + y)[0] == c && ([c] + y)[1..] == y;
  }

  /** Separator-free text in front of text whose first piece is empty becomes that first piece. */
  lemma SplitFreeBefore(x: string, rest: string, tail: seq<string>, c: char)
    requires c !in x
    requires Split(rest, c) == [""] + tail
    ensures Split(x + rest, c) == [x] + tail
  {
    SplitFree(x, c);
    SplitConcat(x, rest, c);
    var b := [""] + tail;
    assert Last([x]) + b[0] == x by { AppendEmpty(x, b[0]); }
    assert b[1..] == tail;
    assert [x][..0] == [];
    assert Fuse([x], b) == [] + [x] + tail;
  }

  /** Splitting a join of separator-free parts gives the parts back. */
  lemma {:induction false} SplitJoin(parts: seq<string>, c: char)
    requires |parts| >= 1
    requires forall i :: 0 <= i < |parts| ==> c !in parts[i]
    ensures Split(Join(parts, [c]), c) == parts
    decreases |parts|
  {
    if |parts| == 1 {
      SplitFree(parts[0], c);
    } else {
      SplitFree(parts[0], c);
      SplitJoin(parts[1..], c);
      SplitAround(parts[0], Join(parts[1..], [c]), c);
      assert [parts[0]] + parts[1..] == parts;
    }
  }

  /** Joining the pieces of a split gives the text back, for every text. */
  lemma {:induction false} JoinSplit(s: string, c: char)
    ensures Join(Split(s, c), [c]) == s
    decreases |s|
  {
    if |s| > 0 {
      JoinSplit(s[1..], c);
      var rest := Split(s[1..], c);
      if s[0] == c {
        assert ([""] + rest)[1..] == rest;
        assert [s[0]] + s[1..] == s;
      } else {
        JoinConsHead(s[0], rest, [c]);
        assert [s[0]] + s[1..] == s;
      }
    }
  }

  /** Prepending a character to the first part prepends it to the join. */
  lemma JoinConsHead(x: char, parts: seq<string>, sep: string)
    requires |parts| >= 1
    ensures Join([[x] + parts[0]] + parts[1..], sep) == [x] + Join(parts, sep)
  {
    var p := [[x] + parts[0]] + parts[1..];
    assert p[1..] == parts[1..];
  }

  /** A join of two or more parts: the first part, a separator, and the join of the rest. */
  lemma JoinUnfold(parts: seq<string>, sep: string)
    requires |parts| >= 2
    ensures Join(parts, sep) == parts[0] + sep + Join(parts[1..], sep)
  {
  }

  /** A string is a prefix of itself followed by two more. */
  lemma PrefixOfConcat2(x: string, y: string, z: string)
    ensures x <= (x + y) + z
  {
    assert ((x + y) + z)[..|x|] == x;
  }

  /** Joining two non-empty lists joins their joins with one more separator. */
  lemma {:induction false} JoinConcat(p: seq<string>, q: seq<string>, sep: string)
    requires |p| >= 1 && |q| >= 1
    ensures Join(p + q, sep) == Join(p, sep) + sep + Join(q, sep)
    decreases |p|
  {
    if |p| > 1 {
      assert (p + q)[1..] == p[1..] + q;
      JoinConcat(p[1..], q, sep);
    } else {
      assert (p + q)[1..] == q;
    }
  }

  /** The join of `parts` followed by one more part. */
  lemma {:induction false} JoinSnoc(parts: seq<string>, last: string, sep: string)
    requires |parts| >= 1
    ensures Join(parts + [last], sep) == Join(parts, sep) + sep + last
    decreases |parts|
  {
    if |parts| > 1 {
      assert (parts + [last])[1..] == parts[1..] + [last];
      JoinSnoc(parts[1..], last, sep);
    }
  }

  /** The pieces of every part, in order: what splitting a join gives back. */
  function SplitEach(parts: seq<string>, c: char): seq<string>
  {
    if |parts| == 0 then [] else Split(parts[0], c) + SplitEach(parts[1..], c)
  }

  /** Splitting a join at its separator gives the pieces of every part, in order. */
  lemma {:induction false} SplitJoinEach(parts: seq<string>, c: char)
    requires |parts| >= 1
    ensures Split(Join(parts, [c]), c) == SplitEach(parts, c)
    decreases |parts|
  {
    if |parts| == 1 {
      assert SplitEach(parts[1..], c) == [];
      assert Split(parts[0], c) + [] == Split(parts[0], c);
    } else {
      SplitJoinEach(parts[1..], c);
      SplitAround(parts[0], Join(parts[1..], [c]), c);
    }
  }

  lemma {:induction false} SplitEachConcat(p: seq<string>, q: seq<string>, c: char)
    ensures SplitEach(p + q, c) == SplitEach(p, c) + SplitEach(q, c)
    decreases |p|
  {
    if |p| == 0 {
      assert p + q == q;
    } else {
      assert (p + q)[0] == p[0] && (p + q)[1..] == p[1..] + q;
      SplitEachConcat(p[1..], q, c);
      var a := Split(p[0], c);
      assert a + (SplitEach(p[1..], c) + SplitEach(q, c)) == (a + SplitEach(p[1..], c)) + SplitEach(q, c);
    }
  }

  /** Parts free of the separator split into themselves. */
  lemma {:induction false} SplitEachFree(parts: seq<string>, c: char)
    requires forall i :: 0 <= i < |parts| ==> c !in parts[i]
    ensures SplitEach(parts, c) == parts
    decreases |parts|
  {
    if |parts| > 0 {
      SplitFree(parts[0], c);
      SplitEachFree(parts[1..], c);
      assert [parts[0]] + parts[1..] == parts;
    }
  }

  /** The pieces of a single part are the pieces of that part. */
  lemma SplitEachSingle(x: string, c: char)
    ensures SplitEach([x], c) == Split(x, c)
  {
    assert [x][1..] == [];
    assert Split(x, c) + [] == Split(x, c);
  }

  /** A join of parts and a separator that all lack `c` lacks `c`. */
  lemma {:induction false} JoinFree(parts: seq<string>, sep: string, c: char)
    requires c !in sep
    requires forall i :: 0 <= i < |parts| ==> c !in parts[i]
    ensures c !in Join(parts, sep)
    decreases |parts|
  {
    if |parts| > 1 {
      JoinFree(parts[1..], sep, c);
    }
  }

  /** A join around one middle part: the joins on either side, the part, and two separators. */
  lemma JoinMiddle(p: seq<string>, x: string, q: seq<string>, sep: string)
    requires |p| >= 1 && |q| >= 1
    ensures Join(p + [x] + q, sep) == Join(p, sep) + sep + (x + sep + Join(q, sep))
  {
    assert p + [x] + q == p + ([x] + q);
    JoinConcat(p, [x] + q, sep);
    assert ([x] + q)[1..] == q;
  }

  /** Joining with a run of middle parts is joining with their join as one middle part. */
  lemma JoinMiddleParts(p: seq<string>, m: seq<string>, q: seq<string>, sep: string)
    requires |p| >= 1 && |m| >= 1 && |q| >= 1
    ensures Join(p + m + q, sep) == Join(p + [Join(m, sep)] + q, sep)
  {
    assert p + m + q == p + (m + q);
    JoinConcat(p, m + q, sep);
    JoinConcat(m, q, sep);
    JoinMiddle(p, Join(m, sep), q, sep);
    var jp, jm, jq := Join(p, sep), Join(m, sep), Join(q, sep);
    assert jp + sep + (jm + sep + jq) == jp + sep + (jm + sep + jq);
  }

  /**
   * Splitting a join whose outer parts are separator-free gives those parts
   * back, around the pieces of the middle part.
   */
  lemma SplitJoinMiddle(p: seq<string>, x: string, q: seq<string>, c: char)
    requires |p| >= 1 && |q| >= 1
    requires forall i :: 0 <= i < |p| ==> c !in p[i]
    requires forall i :: 0 <= i < |q| ==> c !in q[i]
    ensures Split(Join(p + [x] + q, [c]), c) == p + Split(x, c) + q
  {
    var jp, jq, sx := Join(p, [c]), Join(q, [c]), Split(x, c);
    SplitJoin(q, c);
    SplitAround(x, jq, c);
    var rest := x + [c] + jq;
    assert Split(rest, c) == sx + q;
    SplitJoin(p, c);
    SplitAround(jp, rest, c);
    assert Split(jp + [c] + rest, c) == p + (sx + q);
    JoinMiddle(p, x, q, [c]);
    assert p + (sx + q) == p + sx + q;
  }

  /**
   * The text between a known prefix and a known suffix, or None when `line`
   * does not have that shape.
   */
  function StripAffixes(line: string, prefix: string, suffix: string): (r: Option<string>)
    ensures r.Some? ==> prefix + r.value + suffix == line
  {
    if |prefix| + |suffix| <= |line|
       && line[..|prefix|] == prefix
       && line[|line| - |suffix|..] == suffix
    then
      var mid := line[|prefix|..|line| - |suffix|];
      assert prefix + mid + suffix == line by {
        assert line == line[..|prefix|] + line[|prefix|..|line| - |suffix|] + line[|line| - |suffix|..];
      }
      Some(mid)
    else
      None
  }

  /** Stripping the affixes a line was built from recovers its middle. */
  lemma StripAffixesOf(prefix: string, x: string, suffix: string)
    ensures StripAffixes(prefix + x + suffix, prefix, suffix) == Some(x)
  {
    var line := prefix + x + suffix;
    assert line[|prefix|..|line| - |suffix|] == x;
  }
}
