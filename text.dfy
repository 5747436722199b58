/** The few Python `str` operations the scripts rely on: `strip()`,
    `split(sep)` with a one-character separator, `startswith` and
    `replace(old, "")`. Strings are sequences of code points. */
module Text {

  /** Python's `str.isspace()` for one code point: the ASCII controls
      TAB to CR, the four information separators, SPACE, and the Unicode
      space characters. */
  predicate IsSpace(c: char)
  {
    ('\t' <= c <= '\r') || ('\U{1c}' <= c <= '\U{1f}') || c == ' '
    || c == '\U{85}' || c == '\U{a0}' || c == '\U{1680}'
    || ('\U{2000}' <= c <= '\U{200a}') || c == '\U{2028}' || c == '\U{2029}'
    || c == '\U{202f}' || c == '\U{205f}' || c == '\U{3000}'
  }

  predicate AllSpace(s: string)
  {
    forall i :: 0 <= i < |s| ==> IsSpace(s[i])
  }

  /** A string that `strip()` leaves as it is: empty, or no space at either end. */
  predicate IsStripped(s: string)
  {
    s == [] || (!IsSpace(s[0]) && !IsSpace(s[|s| - 1]))
  }

  /** `s.lstrip()`: the longest suffix of `s` that does not start with a space. */
  function StripLeft(s: string): (r: string)
    ensures |r| <= |s| && r == s[|s| - |r|..]
    ensures r == [] || !IsSpace(r[0])
  {
    if s != [] && IsSpace(s[0]) then StripLeft(s[1..]) else s
  }

  /** Everything `lstrip()` removes is white space. */
  lemma {:induction false} StripLeftSpaces(s: string)
    ensures forall i :: 0 <= i < |s| - |StripLeft(s)| ==> IsSpace(s[i])
  {
    if s != [] && IsSpace(s[0]) {
      StripLeftSpaces(s[1..]);
      assert forall i :: 1 <= i < |s| ==> s[1..][i - 1] == s[i];
    }
  }

  /** `s.rstrip()`: the longest prefix of `s` that does not end with a space. */
  function StripRight(s: string): (r: string)
    ensures |r| <= |s| && r == s[..|r|]
    ensures r == [] || !IsSpace(r[|r| - 1])
  {
    if s != [] && IsSpace(s[|s| - 1]) then StripRight(s[..|s| - 1]) else s
  }

  /** Everything `rstrip()` removes is white space. */
  lemma {:induction false} StripRightSpaces(s: string)
    ensures forall i :: |StripRight(s)| <= i < |s| ==> IsSpace(s[i])
  {
    if s != [] && IsSpace(s[|s| - 1]) {
      StripRightSpaces(s[..|s| - 1]);
    }
  }

  /** `s.strip()`. */
  function Strip(s: string): (r: string)
    ensures IsStripped(r)
  {
    StripRight(StripLeft(s))
  }

  /** `strip()` leaves nothing exactly of a string that is all white space. */
  lemma StripEmpty(s: string)
    ensures Strip(s) == [] <==> AllSpace(s)
  {
    var l := StripLeft(s);
    var r := StripRight(l);
    StripLeftSpaces(s);
    StripRightSpaces(l);
    if r == [] {
      assert l == [];
    }
  }

  /** `strip()` only removes characters. */
  lemma StripIsInfix(s: string)
    ensures forall c :: c in Strip(s) ==> c in s
  {
    var l := StripLeft(s);
    var r := StripRight(l);
    forall c | c in r
      ensures c in s
    {
      var i :| 0 <= i < |r| && r[i] == c;
      assert l[i] == c;
      assert s[|s| - |l| + i] == c;
    }
  }

  /** `strip()` keeps every character that is not white space. */
  lemma StripKeeps(s: string, i: nat)
    requires i < |s| && !IsSpace(s[i])
    ensures s[i] in Strip(s)
  {
    var l := StripLeft(s);
    StripLeftSpaces(s);
    var j := i - (|s| - |l|);
    assert l[j] == s[i];
    StripRightSpaces(l);
    assert Strip(s)[j] == s[i];
  }

  /** A string with a character that is not white space does not strip to
      nothing, and a character absent before `strip()` is absent after. */
  lemma StripAvoids(s: string, i: nat, c: char)
    requires i < |s| && !IsSpace(s[i]) && c !in s
    ensures Strip(s) != [] && c !in Strip(s)
  {
    StripKeeps(s, i);
    StripIsInfix(s);
  }

  /** A leading white-space character makes no difference to `strip()`. */
  lemma StripLeadingSpace(c: char, t: string)
    requires IsSpace(c)
    ensures Strip([c] + t) == Strip(t)
  {
    assert ([c] + t)[1..] == t;
  }

  /** `strip()` removes nothing from a string with no space at either end. */
  lemma StripStripped(s: string)
    requires IsStripped(s)
    ensures Strip(s) == s
  {
  }

  function CountChar(s: string, c: char): nat
  {
    if s == [] then 0 else (if s[0] == c then 1 else 0) + CountChar(s[1..], c)
  }

  /** A character that occurs is counted. */
  lemma {:induction false} CountCharIn(s: string, c: char)
    requires c in s
    ensures CountChar(s, c) > 0
  {
    if s[0] != c {
      CountCharIn(s[1..], c);
    }
  }

  /** The inverse of `Split`: the pieces glued back with the separator. */
  function Join(parts: seq<string>, sep: char): string
    requires |parts| > 0
  {
    if |parts| == 1 then parts[0] else parts[0] + [sep] + Join(parts[1..], sep)
  }

  lemma JoinPair(a: string, b: string, sep: char)
    ensures Join([a, b], sep) == a + [sep] + b
  {
    assert [a, b][1..] == [b];
  }

  /** Joined pieces start where the first piece starts. */
  lemma JoinFirst(parts: seq<string>, sep: char)
    requires |parts| > 0 && parts[0] != []
    ensures var s := Join(parts, sep); |s| > 0 && s[0] == parts[0][0]
  {
  }

  /** Joined pieces end where the last piece ends. */
  lemma {:induction false} JoinLast(parts: seq<string>, sep: char)
    requires |parts| > 0 && parts[|parts| - 1] != []
    ensures var s := Join(parts, sep); |s| > 0 && s[|s| - 1] == parts[|parts| - 1][|parts[|parts| - 1]| - 1]
  {
    if |parts| > 1 {
      var rest := parts[1..];
      assert rest[|rest| - 1] == parts[|parts| - 1];
      JoinLast(rest, sep);
    }
  }

  /** `s.split(sep)` for a one-character `sep`: always one more piece than
      there are separators, none of them holding the separator, and joining
      them gives `s` back (`SplitPiecesFree`, `JoinSplit`). */
  function Split(s: string, sep: char): (r: seq<string>)
    ensures |r| == CountChar(s, sep) + 1
  {
    if s == [] then [""]
    else
      var rest := Split(s[1..], sep);
      if s[0] == sep then [""] + rest
      else
        assert s == [s[0]] + s[1..];
        [[s[0]] + rest[0]] + rest[1..]
  }

  /** No piece of a split holds the separator. */
  lemma {:induction false} SplitPiecesFree(s: string, sep: char)
    ensures forall i :: 0 <= i < |Split(s, sep)| ==> sep !in Split(s, sep)[i]
  {
    if s != [] {
      SplitPiecesFree(s[1..], sep);
      var rest := Split(s[1..], sep);
      if s[0] != sep {
        var r := Split(s, sep);
        assert r[0] == [s[0]] + rest[0];
        assert forall i :: 1 <= i < |r| ==> r[i] == rest[i];
      }
    }
  }

  /** Joining the pieces of a split with the separator gives the string back. */
  /** The first piece of `split(sep)` is the text up to the first
      separator, or all of it. */
  lemma SplitFirst(s: string, sep: char)
    ensures var h := Split(s, sep)[0]; h <= s && (|h| == |s| || s[|h|] == sep)
  {
    var parts := Split(s, sep);
    JoinSplit(s, sep);
    if |parts| > 1 {
      assert Join(parts, sep) == parts[0] + [sep] + Join(parts[1..], sep);
    }
  }

  lemma {:induction false} JoinSplit(s: string, sep: char)
    ensures Join(Split(s, sep), sep) == s
  {
    if s != [] {
      JoinSplit(s[1..], sep);
      var rest := Split(s[1..], sep);
      if s[0] != sep {
        assert s == [s[0]] + s[1..];
        if |rest| > 1 {
          assert ([[s[0]] + rest[0]] + rest[1..])[1..] == rest[1..];
        }
      }
    }
  }

  /** Splitting at a separator splits the two sides independently. */
  lemma {:induction false} SplitAround(a: string, b: string, sep: char)
    ensures Split(a + [sep] + b, sep) == Split(a, sep) + Split(b, sep)
  {
    if a == [] {
      assert a + [sep] + b == [sep] + b;
      assert ([sep] + b)[1..] == b;
    } else {
      assert (a + [sep] + b)[1..] == a[1..] + [sep] + b;
      SplitAround(a[1..], b, sep);
    }
  }

  /** A string without the separator is one piece. */
  lemma {:induction false} SplitNoSeparator(s: string, sep: char)
    requires sep !in s
    ensures Split(s, sep) == [s]
  {
    if s != [] {
      SplitNoSeparator(s[1..], sep);
      assert s == [s[0]] + s[1..];
    }
  }

  /** Two separator-free fields glued by the separator split back into exactly those two. */
  lemma SplitPair(a: string, b: string, sep: char)
    requires sep !in a && sep !in b
    ensures Split(a + [sep] + b, sep) == [a, b]
  {
    SplitAround(a, b, sep);
    SplitNoSeparator(a, sep);
    SplitNoSeparator(b, sep);
  }

  /** Pieces without the separator, joined and split again, come back as they were. */
  lemma {:induction false} SplitJoin(parts: seq<string>, sep: char)
    requires |parts| > 0 && forall i :: 0 <= i < |parts| ==> sep !in parts[i]
    ensures Split(Join(parts, sep), sep) == parts
  {
    SplitNoSeparator(parts[0], sep);
    if |parts| > 1 {
      SplitJoin(parts[1..], sep);
      SplitAround(parts[0], Join(parts[1..], sep), sep);
      assert [parts[0]] + parts[1..] == parts;
    }
  }

  predicate StartsWith(s: string, prefix: string)
  {
    |prefix| <= |s| && s[..|prefix|] == prefix
  }

  /** `s.replace(pat, "")`: every occurrence of `pat`, scanned left to right
      without overlap, is removed. */
  function RemoveAll(s: string, pat: string): (r: string)
    requires pat != []
    ensures |r| <= |s|
    decreases |s|
  {
    if |s| < |pat| then s
    else if s[..|pat|] == pat then RemoveAll(s[|pat|..], pat)
    else [s[0]] + RemoveAll(s[1..], pat)
  }

  /** Removing a pattern brings in no character that was not there. */
  lemma {:induction false} RemoveAllAvoids(s: string, pat: string, c: char)
    requires pat != [] && c !in s
    ensures c !in RemoveAll(s, pat)
    decreases |s|
  {
    if |s| >= |pat| {
      if s[..|pat|] == pat {
        assert forall j :: 0 <= j < |s| - |pat| ==> s[|pat|..][j] == s[|pat| + j];
        RemoveAllAvoids(s[|pat|..], pat, c);
      } else {
        assert forall j :: 0 <= j < |s| - 1 ==> s[1..][j] == s[1 + j];
        RemoveAllAvoids(s[1..], pat, c);
      }
    }
  }

  /** When the pattern's first character does not occur in `t`, an
      occurrence right after `t` is the first one, and it is removed. */
  lemma {:induction false} RemoveAfter(t: string, pat: string, rest: string)
    requires pat != [] && pat[0] !in t
    ensures RemoveAll(t + pat + rest, pat) == t + RemoveAll(rest, pat)
  {
    var s := t + pat + rest;
    if t == [] {
      assert s[..|pat|] == pat;
      assert s[|pat|..] == rest;
    } else {
      var t' := t[1..];
      assert pat[0] !in t' by {
        assert forall j :: 0 <= j < |t'| ==> t'[j] == t[j + 1];
      }
      assert s[0] == t[0] != pat[0];
      assert s[..|pat|] != pat by {
        assert s[..|pat|][0] == s[0];
      }
      assert s[1..] == t' + pat + rest;
      RemoveAfter(t', pat, rest);
      assert RemoveAll(s, pat) == [t[0]] + (t' + RemoveAll(rest, pat));
      assert [t[0]] + t' == t;
    }
  }

  /** When the pattern's first character does not occur in `t`, the only
      occurrence in `t + pat` is the final one, and removing it leaves `t`. */
  lemma RemoveTrailing(t: string, pat: string)
    requires pat != [] && pat[0] !in t
    ensures RemoveAll(t + pat, pat) == t
  {
    RemoveAfter(t, pat, []);
    assert t + pat + [] == t + pat;
  }
}
