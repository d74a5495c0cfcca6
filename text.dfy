/** Python string operations the modelled code relies on, over `string`
    (a sequence of characters): `str.split(sep)`, `sep.join(xs)`,
    `str.strip(chars)`, `str.split()` with no argument, decimal formatting of
    a natural number and ASCII `str.lower()`. */
module Text {
  import opened Results

  /** The characters below 128 that Python's `str.isspace` accepts. */
  predicate IsSpace(c: char)
  {
    // space; tab, line feed, vertical tab, form feed, carriage return;
    // the four information separators
    c == ' ' || (9 <= c as int <= 13) || (28 <= c as int <= 31)
  }

  // ---------------------------------------------------------------------
  // s.split(sep)

  /** `s.split(sep)` for a one-character separator: the pieces between
      separators, empty pieces included, so there is always at least one. */
  function Split(s: string, sep: char): (r: seq<string>)
    ensures |r| >= 1
    ensures forall i :: 0 <= i < |r| ==> sep !in r[i]
  {
    if s == [] then [""]
    else if s[0] == sep then [""] + Split(s[1..], sep)
    else
      var rest := Split(s[1..], sep);
      [[s[0]] + rest[0]] + rest[1..]
  }

  /** `sep.join(xs)`. */
  function Join(xs: seq<string>, sep: char): string
  {
    if xs == [] then ""
    else if |xs| == 1 then xs[0]
    else xs[0] + [sep] + Join(xs[1..], sep)
  }

  lemma {:induction false} SplitNoSeparator(s: string, sep: char)
    requires sep !in s
    ensures Split(s, sep) == [s]
  {
    if s != [] {
      SplitNoSeparator(s[1..], sep);
      assert [s[0]] + s[1..] == s;
    }
  }

  /** Splitting at a separator whose left part holds no separator. */
  lemma {:induction false} SplitAtFirst(a: string, sep: char, b: string)
    requires sep !in a
    ensures Split(a + [sep] + b, sep) == [a] + Split(b, sep)
  {
    if a == [] {
      assert a + [sep] + b == [sep] + b;
      assert ([sep] + b)[1..] == b;
    } else {
      var s := a + [sep] + b;
      assert s[0] == a[0] && s[1..] == a[1..] + [sep] + b;
      SplitAtFirst(a[1..], sep, b);
      assert [a[0]] + a[1..] == a;
    }
  }

  /** Joining the pieces of a split gives back the string. */
  lemma {:induction false} JoinSplit(s: string, sep: char)
    ensures Join(Split(s, sep), sep) == s
  {
    if s == [] {
    } else if s[0] == sep {
      JoinSplit(s[1..], sep);
      var rest := Split(s[1..], sep);
      assert Split(s, sep) == [""] + rest;
      assert ([""] + rest)[1..] == rest;
      assert s == [] + [sep] + s[1..];
    } else {
      JoinSplit(s[1..], sep);
      var rest := Split(s[1..], sep);
      var r := [[s[0]] + rest[0]] + rest[1..];
      assert Split(s, sep) == r;
      if |rest| == 1 {
        assert s == [s[0]] + s[1..];
      } else {
        assert r[1..] == rest[1..];
        assert Join(rest, sep) == rest[0] + [sep] + Join(rest[1..], sep);
        assert s == [s[0]] + s[1..];
      }
    }
  }

  /** Splitting a join gives back the pieces, when no piece holds the
      separator and there is at least one piece (`"".split(",")` is `[""]`). */
  lemma {:induction false} SplitJoin(xs: seq<string>, sep: char)
    requires |xs| >= 1
    requires forall i :: 0 <= i < |xs| ==> sep !in xs[i]
    ensures Split(Join(xs, sep), sep) == xs
  {
    if |xs| == 1 {
      SplitNoSeparator(xs[0], sep);
    } else {
      SplitJoin(xs[1..], sep);
      SplitAtFirst(xs[0], sep, Join(xs[1..], sep));
      assert [xs[0]] + xs[1..] == xs;
    }
  }

  // ---------------------------------------------------------------------
  // s.strip(chars)

  function StripLeft(s: string, cs: set<char>): (r: string)
    ensures |r| <= |s|
    ensures r == s[|s| - |r|..]
    ensures r != [] ==> r[0] !in cs
  {
    if s != [] && s[0] in cs then StripLeft(s[1..], cs) else s
  }

  function StripRight(s: string, cs: set<char>): (r: string)
    ensures |r| <= |s|
    ensures r == s[..|r|]
    ensures r != [] ==> r[|r| - 1] !in cs
  {
    if s != [] && s[|s| - 1] in cs then StripRight(s[..|s| - 1], cs) else s
  }

  /** `s.strip(chars)`: leading and trailing characters of `cs` removed. */
  function Strip(s: string, cs: set<char>): string
  {
    StripRight(StripLeft(s, cs), cs)
  }

  /** A string without any character of `cs` is left unchanged by strip. */
  lemma StripNothing(s: string, cs: set<char>)
    requires forall i :: 0 <= i < |s| ==> s[i] !in cs
    ensures Strip(s, cs) == s
  {
  }

  // ---------------------------------------------------------------------
  // s.split()

  /** Length of the run of non-space characters at the front of `s`. */
  function WordLength(s: string): (n: nat)
    ensures n <= |s|
    ensures forall i :: 0 <= i < n ==> !IsSpace(s[i])
    ensures n < |s| ==> IsSpace(s[n])
  {
    if s == [] || IsSpace(s[0]) then 0 else 1 + WordLength(s[1..])
  }

  /** `s.split()`: the maximal runs of non-space characters, in order. */
  function Words(s: string): (r: seq<string>)
    decreases |s|
  {
    if s == [] then []
    else if IsSpace(s[0]) then Words(s[1..])
    else
      var n := WordLength(s);
      [s[..n]] + Words(s[n..])
  }

  /** The characters of `s` that are not spaces. */
  function NonSpace(s: string): string
  {
    if s == [] then [] else (if IsSpace(s[0]) then [] else [s[0]]) + NonSpace(s[1..])
  }

  lemma {:induction false} NonSpaceAppend(a: string, b: string)
    ensures NonSpace(a + b) == NonSpace(a) + NonSpace(b)
  {
    if a != [] {
      assert (a + b)[1..] == a[1..] + b;
      NonSpaceAppend(a[1..], b);
    } else {
      assert a + b == b;
    }
  }

  lemma {:induction false} NonSpaceOfWord(s: string)
    requires forall i :: 0 <= i < |s| ==> !IsSpace(s[i])
    ensures NonSpace(s) == s
  {
    if s != [] {
      NonSpaceOfWord(s[1..]);
      assert [s[0]] + s[1..] == s;
    }
  }

  /** The words of `s` are non-empty, hold no space, and together are exactly
      the non-space characters of `s`, in order. */
  lemma {:induction false} WordsProperties(s: string)
    ensures forall i :: 0 <= i < |Words(s)| ==> Words(s)[i] != []
    ensures forall i, k :: 0 <= i < |Words(s)| && 0 <= k < |Words(s)[i]| ==> !IsSpace(Words(s)[i][k])
    ensures Flatten(Words(s)) == NonSpace(s)
    decreases |s|
  {
    if s == [] {
    } else if IsSpace(s[0]) {
      WordsProperties(s[1..]);
    } else {
      var n := WordLength(s);
      WordsProperties(s[n..]);
      assert s == s[..n] + s[n..];
      NonSpaceAppend(s[..n], s[n..]);
      NonSpaceOfWord(s[..n]);
      var w := Words(s);
      assert w == [s[..n]] + Words(s[n..]);
      assert w[1..] == Words(s[n..]);
    }
  }

  /** The string laid out as `gaps[0] + ws[0] + gaps[1] + ws[1] + ... +
      gaps[|ws|]`. */
  function Layout(gaps: seq<string>, ws: seq<string>): string
    requires |gaps| == |ws| + 1
    decreases |ws|
  {
    if ws == [] then gaps[0] else gaps[0] + ws[0] + Layout(gaps[1..], ws[1..])
  }

  /** `gaps` and `ws` describe a string split into maximal runs: every word
      is non-empty and holds no whitespace, every gap is whitespace only, and
      the gaps between two words are not empty. */
  predicate MaximalRuns(gaps: seq<string>, ws: seq<string>)
  {
    |gaps| == |ws| + 1 &&
    (forall i, k :: 0 <= i < |ws| && 0 <= k < |ws[i]| ==> !IsSpace(ws[i][k])) &&
    (forall i :: 0 <= i < |ws| ==> ws[i] != []) &&
    (forall i, k :: 0 <= i < |gaps| && 0 <= k < |gaps[i]| ==> IsSpace(gaps[i][k])) &&
    (forall i :: 0 < i < |ws| ==> gaps[i] != [])
  }

  lemma {:induction false} WordsAfterSpaces(sp: string, t: string)
    requires forall k :: 0 <= k < |sp| ==> IsSpace(sp[k])
    ensures Words(sp + t) == Words(t)
  {
    if sp != [] {
      assert (sp + t)[1..] == sp[1..] + t;
      WordsAfterSpaces(sp[1..], t);
    } else {
      assert sp + t == t;
    }
  }

  lemma WordsAfterWord(w: string, t: string)
    requires w != [] && forall k :: 0 <= k < |w| ==> !IsSpace(w[k])
    requires t == [] || IsSpace(t[0])
    ensures Words(w + t) == [w] + Words(t)
  {
    WordLengthOfWord(w, t);
    assert (w + t)[..|w|] == w && (w + t)[|w|..] == t;
  }

  lemma {:induction false} WordLengthOfWord(w: string, t: string)
    requires forall k :: 0 <= k < |w| ==> !IsSpace(w[k])
    requires t == [] || IsSpace(t[0])
    ensures WordLength(w + t) == |w|
  {
    if w == [] {
      assert w + t == t;
    } else {
      assert (w + t)[1..] == w[1..] + t;
      WordLengthOfWord(w[1..], t);
    }
  }

  /** `split()` gives back exactly the words of any layout into maximal runs:
      a string's words are determined by where its whitespace is. */
  lemma {:induction false} WordsAreMaximalRuns(gaps: seq<string>, ws: seq<string>)
    requires MaximalRuns(gaps, ws)
    ensures Words(Layout(gaps, ws)) == ws
    decreases |ws|
  {
    if ws == [] {
      WordsAfterSpaces(gaps[0], []);
      assert gaps[0] + [] == gaps[0];
    } else {
      var rest := Layout(gaps[1..], ws[1..]);
      assert MaximalRuns(gaps[1..], ws[1..]) by {
        assert forall i :: 0 <= i < |ws[1..]| ==> ws[1..][i] == ws[i + 1];
        assert forall i :: 0 <= i < |gaps[1..]| ==> gaps[1..][i] == gaps[i + 1];
      }
      WordsAreMaximalRuns(gaps[1..], ws[1..]);
      assert rest == [] || IsSpace(rest[0]) by {
        if ws[1..] == [] {
          assert rest == gaps[1];
        } else {
          assert gaps[1] != [];
          assert rest == gaps[1] + ws[1] + Layout(gaps[2..], ws[2..]) by {
            assert gaps[1..][1..] == gaps[2..];
            assert ws[1..][1..] == ws[2..];
          }
        }
      }
      WordsAfterWord(ws[0], rest);
      WordsAfterSpaces(gaps[0], ws[0] + rest);
      assert Layout(gaps, ws) == gaps[0] + (ws[0] + rest);
      assert [ws[0]] + ws[1..] == ws;
    }
  }

  function Flatten(xs: seq<string>): string
  {
    if xs == [] then [] else xs[0] + Flatten(xs[1..])
  }

  // ---------------------------------------------------------------------
  // Decimal digits: "{}".format(n) for a natural number, and its parser.

  function DigitChar(d: nat): char
    requires d < 10
  {
    ['0', '1', '2', '3', '4', '5', '6', '7', '8', '9'][d]
  }

  predicate IsDigit(c: char)
  {
    '0' <= c <= '9'
  }

  function DigitValue(c: char): nat
    requires IsDigit(c)
  {
    (c - '0') as nat
  }

  /** The decimal representation of `n`, without leading zeros. */
  function NatToString(n: nat): (r: string)
    ensures r != []
    ensures forall i :: 0 <= i < |r| ==> IsDigit(r[i])
  {
    if n < 10 then [DigitChar(n)] else NatToString(n / 10) + [DigitChar(n % 10)]
  }

  function DigitsValue(s: string): nat
    requires forall i :: 0 <= i < |s| ==> IsDigit(s[i])
  {
    if s == [] then 0 else DigitsValue(s[..|s| - 1]) * 10 + DigitValue(s[|s| - 1])
  }

  /** Reads a non-empty run of decimal digits; anything else is rejected. */
  function ParseNat(s: string): Option<nat>
  {
    if s != [] && forall i :: 0 <= i < |s| ==> IsDigit(s[i]) then Some(DigitsValue(s)) else None
  }

  /** Formatting a natural number and reading it back gives the number. */
  lemma {:induction false} ParseNatToString(n: nat)
    ensures ParseNat(NatToString(n)) == Some(n)
  {
    if n >= 10 {
      ParseNatToString(n / 10);
      var s := NatToString(n);
      assert s[..|s| - 1] == NatToString(n / 10);
      assert DigitValue(s[|s| - 1]) == n % 10;
      assert DigitsValue(s) == (n / 10) * 10 + n % 10;
    }
  }

  // ---------------------------------------------------------------------
  // s.lower() on ASCII letters

  function LowerChar(c: char): char
  {
    if 'A' <= c <= 'Z' then (c - 'A' + 'a') as char else c
  }

  function Lower(s: string): (r: string)
    ensures |r| == |s|
    ensures forall i :: 0 <= i < |s| ==> r[i] == LowerChar(s[i])
  {
    seq(|s|, i requires 0 <= i < |s| => LowerChar(s[i]))
  }

  /** A lower-case letter occurs in `lower(s)` exactly when it or its
      upper-case form occurs in `s`. */
  lemma LowerContains(s: string, lo: char, up: char)
    requires 'a' <= lo <= 'z' && up == (lo - 'a' + 'A') as char
    ensures lo in Lower(s) <==> lo in s || up in s
  {
    var r := Lower(s);
    if lo in r {
      var i :| 0 <= i < |r| && r[i] == lo;
      assert s[i] == lo || s[i] == up;
    }
    if lo in s {
      var i :| 0 <= i < |s| && s[i] == lo;
      assert r[i] == lo;
    }
    if up in s {
      var i :| 0 <= i < |s| && s[i] == up;
      assert r[i] == lo;
    }
  }
}
