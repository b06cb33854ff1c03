// Splitting at a delimiter, joining with it, and telling joined parts apart.
module Text {
  function Split(s: string, d: char): (pieces: seq<string>)
    ensures |pieces| > 0
    ensures |pieces| == 1 <==> d !in s
  {
    if s == "" then [""]
    else
      Prepended(s[0], d, Split(s[1..], d))
  }

  function Join(pieces: seq<string>, d: char): string {
    if pieces == [] then ""
    else if |pieces| == 1 then pieces[0]
    else Join(pieces[..|pieces| - 1], d) + [d] + pieces[|pieces| - 1]
  }

  lemma {:induction false} SplitWhole(s: string, d: char)
    requires d !in s
    ensures Split(s, d) == [s]
  {
    if s != "" {
      SplitWhole(s[1..], d);
      assert [s[0]] + s[1..] == s;
    }
  }

  /** What one more character in front does to the pieces. */
  function Prepended(c: char, d: char, pieces: seq<string>): seq<string>
    requires |pieces| > 0
  {
    if c == d then [""] + pieces else [[c] + pieces[0]] + pieces[1..]
  }

  lemma {:induction false} PrependedConcat(c: char, d: char, a: seq<string>, b: seq<string>)
    requires |a| > 0
    ensures Prepended(c, d, a + b) == Prepended(c, d, a) + b
  {
  }

  lemma {:induction false} SplitConcat(x: string, d: char, y: string)
    ensures Split(x + [d] + y, d) == Split(x, d) + Split(y, d)
  {
    var s := x + [d] + y;
    if x == "" {
      assert s[0] == d && s[1..] == y;
    } else {
      SplitConcat(x[1..], d, y);
      assert s[0] == x[0] && s[1..] == x[1..] + [d] + y;
      PrependedConcat(x[0], d, Split(x[1..], d), Split(y, d));
      hide Prepended;
    }
  }

  /** Splitting undoes joining when no piece contains the delimiter. */
  lemma {:induction false} SplitJoined(pieces: seq<string>, d: char)
    requires pieces != [] && forall p :: p in pieces ==> d !in p
    ensures Split(Join(pieces, d), d) == pieces
  {
    var n := |pieces| - 1;
    assert pieces == pieces[..n] + [pieces[n]];
    SplitWhole(pieces[n], d);
    if n > 0 {
      SplitJoined(pieces[..n], d);
      SplitConcat(Join(pieces[..n], d), d, pieces[n]);
    }
  }

  lemma {:induction false} JoinFirst(x: string, first: string, rest: seq<string>, d: char)
    ensures Join([x + first] + rest, d) == x + Join([first] + rest, d)
  {
    if rest != [] {
      var n := |rest| - 1;
      JoinFirst(x, first, rest[..n], d);
      assert ([x + first] + rest)[..|rest|] == [x + first] + rest[..n];
      assert ([first] + rest)[..|rest|] == [first] + rest[..n];
    } else {
      assert [x + first] + rest == [x + first] && [first] + rest == [first];
    }
  }

  lemma {:induction false} JoinEmptyFirst(rest: seq<string>, d: char)
    requires rest != []
    ensures Join([""] + rest, d) == [d] + Join(rest, d)
  {
    var n := |rest| - 1;
    assert ([""] + rest)[..|rest|] == [""] + rest[..n];
    if n > 0 {
      JoinEmptyFirst(rest[..n], d);
    } else {
      assert [""] + rest[..0] == [""];
    }
  }

  /** Joining undoes splitting, and no piece contains the delimiter. */
  lemma {:induction false} JoinSplit(s: string, d: char)
    ensures Join(Split(s, d), d) == s
    ensures forall p :: p in Split(s, d) ==> d !in p
  {
    if s != "" {
      JoinSplit(s[1..], d);
      var rest := Split(s[1..], d);
      assert rest == [rest[0]] + rest[1..];
      assert s == [s[0]] + s[1..];
      if s[0] == d {
        JoinEmptyFirst(rest, d);
      } else {
        JoinFirst([s[0]], rest[0], rest[1..], d);
      }
    }
  }

  /** The first delimiter of a pair tells its parts apart when the first parts contain none. */
  lemma {:induction false} FirstDelimiter(a: string, b: string, a': string, b': string, d: char)
    requires d !in a && d !in a' && a + [d] + b == a' + [d] + b'
    ensures a == a' && b == b'
  {
    var s, s' := a + [d] + b, a' + [d] + b';
    assert s[|a|] == d && s'[|a'|] == d;
    assert forall i :: 0 <= i < |a| ==> s[i] == a[i] != d;
    assert forall i :: 0 <= i < |a'| ==> s'[i] == a'[i] != d;
    assert |a| == |a'|;
    assert a == s[..|a|] && a' == s'[..|a|] && b == s[|a| + 1..] && b' == s'[|a| + 1..];
  }

  /** The last delimiter does when the last parts contain none. */
  lemma {:induction false} LastDelimiter(a: string, b: string, a': string, b': string, d: char)
    requires d !in b && d !in b' && a + [d] + b == a' + [d] + b'
    ensures a == a' && b == b'
  {
    var s, s' := a + [d] + b, a' + [d] + b';
    assert s[|a|] == d && s'[|a'|] == d;
    assert forall i :: |a| < i < |s| ==> s[i] == b[i - |a| - 1] != d;
    assert forall i :: |a'| < i < |s'| ==> s'[i] == b'[i - |a'| - 1] != d;
    assert |a| == |a'|;
    assert a == s[..|a|] && a' == s'[..|a|] && b == s[|a| + 1..] && b' == s'[|a| + 1..];
  }
}
