/**
 * The JavaScript string built-ins the blog front end relies on, as functions
 * on `string`. A Dafny `char` is a Unicode scalar value, so `|s|` equals
 * `s.length` only for text inside the Basic Multilingual Plane; a character
 * beyond it is one `char` here and two UTF-16 code units in JavaScript.
 * `Join` is not used by the front end: it states what `Split` gives back.
 */
module JsStrings {

  /** `p` occurs in `s` starting at index `i`. */
  predicate OccursAt(s: string, p: string, i: int) {
    0 <= i <= |s| - |p| && s[i..i + |p|] == p
  }

  /** `p` occurs in `s` as a contiguous piece. */
  predicate Occurs(s: string, p: string) {
    exists i | 0 <= i <= |s| - |p| :: OccursAt(s, p, i)
  }

  /** An occurrence inside a slice is an occurrence in the whole string. */
  lemma OccursInSlice(s: string, a: nat, b: nat, p: string)
    requires a <= b <= |s|
    ensures Occurs(s[a..b], p) ==> Occurs(s, p)
  {
    if Occurs(s[a..b], p) {
      var i :| 0 <= i <= |s[a..b]| - |p| && OccursAt(s[a..b], p, i);
      var w := s[a + i..a + i + |p|];
      forall j | 0 <= j < |p| ensures w[j] == p[j] {
        assert p[j] == s[a..b][i..i + |p|][j];
      }
      assert OccursAt(s, p, a + i);
    }
  }

  /** An occurrence in either half is an occurrence in the concatenation. */
  lemma OccursInConcat(x: string, y: string, p: string)
    ensures Occurs(x, p) ==> Occurs(x + y, p)
    ensures Occurs(y, p) ==> Occurs(x + y, p)
  {
    assert (x + y)[..|x|] == x;
    assert (x + y)[|x|..|x + y|] == y;
    OccursInSlice(x + y, 0, |x|, p);
    OccursInSlice(x + y, |x|, |x + y|, p);
  }

  /** An occurrence in `[c] + t` starts at the front or lies inside `t`. */
  lemma OccursCons(c: char, t: string, p: string)
    ensures Occurs([c] + t, p) ==> (|p| <= 1 + |t| && ([c] + t)[..|p|] == p) || Occurs(t, p)
  {
    var s := [c] + t;
    if Occurs(s, p) {
      var i :| 0 <= i <= |s| - |p| && OccursAt(s, p, i);
      if i > 0 {
        assert s[1..|s|] == t;
        OccursInSliceAt(s, 1, |s|, p, i);
      }
    }
  }

  /** An occurrence at `i` that lies inside `s[a..b]` is one of the slice, at `i - a`. */
  lemma OccursInSliceAt(s: string, a: nat, b: nat, p: string, i: int)
    requires a <= i && i + |p| <= b <= |s| && OccursAt(s, p, i)
    ensures Occurs(s[a..b], p)
  {
    var w := s[a..b][i - a..i - a + |p|];
    forall j | 0 <= j < |p| ensures w[j] == p[j] {
      assert p[j] == s[i..i + |p|][j];
    }
    assert OccursAt(s[a..b], p, i - a);
  }

  /** A string holding `p` also holds every prefix `q` of `p`. */
  lemma OccursOfPrefix(s: string, p: string, q: string)
    requires q <= p
    ensures Occurs(s, p) ==> Occurs(s, q)
  {
    if Occurs(s, p) {
      var i :| 0 <= i <= |s| - |p| && OccursAt(s, p, i);
      var w := s[i..i + |q|];
      forall j | 0 <= j < |q| ensures w[j] == q[j] {
        assert q[j] == p[j] == s[i..i + |p|][j];
      }
      assert OccursAt(s, q, i);
    }
  }

  // ---------------------------------------------------------------------
  // s.replace(/p/g, '') for a literal pattern p
  // ---------------------------------------------------------------------

  /**
   * `s.replace(/p/g, '')` for a regular expression that is a literal `p`:
   * matches are found left to right, do not overlap, and the scan resumes
   * right after each match.
   */
  function RemoveAll(s: string, p: string): (r: string)
    requires p != []
    ensures |r| <= |s|
    decreases |s|
  {
    if |s| < |p| then s
    else if s[..|p|] == p then RemoveAll(s[|p|..], p)
    else [s[0]] + RemoveAll(s[1..], p)
  }

  /**
   * Removal only drops characters: no character is gained, and characters
   * outside the pattern are all kept.
   */
  lemma {:induction false} RemoveAllKeeps(s: string, p: string)
    requires p != []
    ensures multiset(RemoveAll(s, p)) <= multiset(s)
    ensures forall c :: c !in p ==> multiset(RemoveAll(s, p))[c] == multiset(s)[c]
    decreases |s|
  {
    if |s| < |p| {
    } else if s[..|p|] == p {
      RemoveAllKeeps(s[|p|..], p);
      assert s == s[..|p|] + s[|p|..];
    } else {
      RemoveAllKeeps(s[1..], p);
      assert s == [s[0]] + s[1..];
    }
  }

  /** A string that does not start with the pattern keeps its first character. */
  lemma RemoveAllHead(s: string, p: string)
    requires p != [] && s != [] && s[0] != p[0]
    ensures RemoveAll(s, p) == [s[0]] + RemoveAll(s[1..], p)
  {
  }

  /** Removing a pattern that does not occur leaves the string as it was. */
  lemma {:induction false} RemoveAllAbsent(s: string, p: string)
    requires p != [] && !Occurs(s, p)
    ensures RemoveAll(s, p) == s
    decreases |s|
  {
    if |s| >= |p| {
      assert !OccursAt(s, p, 0);
      assert s[0..0 + |p|] == s[..|p|];
      OccursInSlice(s, 1, |s|, p);
      assert s[1..|s|] == s[1..];
      RemoveAllAbsent(s[1..], p);
      assert s == [s[0]] + s[1..];
    }
  }

  /** A string without the pattern's first character is left as it was. */
  lemma RemoveAllMissing(s: string, p: string)
    requires p != [] && p[0] !in s
    ensures RemoveAll(s, p) == s
  {
    RemoveAllAbsent(s, p);
  }

  /** After removing every `c`, no `c` is left. */
  lemma {:induction false} RemoveAllCharGone(s: string, c: char)
    ensures c !in RemoveAll(s, [c])
    decreases |s|
  {
    if |s| >= 1 {
      RemoveAllCharGone(s[1..], c);
    }
  }

  /**
   * After removing every `cc` pair, no `cc` pair is left: a run of `c` of
   * length n keeps n % 2 characters, and runs never merge because the
   * character that separates them is kept.
   */
  lemma {:induction false} RemoveAllPairGone(s: string, c: char)
    ensures !Occurs(RemoveAll(s, [c, c]), [c, c])
    decreases |s|
  {
    var p := [c, c];
    if |s| < 2 {
      assert RemoveAll(s, p) == s;
    } else if s[..2] == p {
      RemoveAllPairGone(s[2..], c);
    } else {
      var t := RemoveAll(s[1..], p);
      RemoveAllPairGone(s[1..], c);
      OccursCons(s[0], t, p);
      if s[0] == c {
        assert s[1] != c;
        RemoveAllHead(s[1..], p);
      }
    }
  }

  // ---------------------------------------------------------------------
  // String.prototype.trim
  // ---------------------------------------------------------------------

  /**
   * The characters `trim` strips: ECMAScript WhiteSpace (tab, vertical tab,
   * form feed, space, no-break space, byte order mark and the Unicode
   * space separators) and LineTerminator (line feed, carriage return, line
   * and paragraph separator).
   */
  predicate IsWhiteSpace(c: char) {
    || c == '\t' || c == '\n' || c == '\U{000B}' || c == '\U{000C}' || c == '\r'
    || c == ' ' || c == '\U{00A0}' || c == '\U{1680}'
    || ('\U{2000}' <= c <= '\U{200A}')
    || c == '\U{2028}' || c == '\U{2029}' || c == '\U{202F}' || c == '\U{205F}'
    || c == '\U{3000}' || c == '\U{FEFF}'
  }

  /** The length of the white-space run at the start of `s`. */
  function LeadingWhiteSpace(s: string): (n: nat)
    ensures n <= |s|
    ensures forall i :: 0 <= i < n ==> IsWhiteSpace(s[i])
    ensures n < |s| ==> !IsWhiteSpace(s[n])
  {
    if |s| > 0 && IsWhiteSpace(s[0]) then 1 + LeadingWhiteSpace(s[1..]) else 0
  }

  /** The length of the white-space run at the end of `s`. */
  function TrailingWhiteSpace(s: string): (n: nat)
    ensures n <= |s|
    ensures forall i :: |s| - n <= i < |s| ==> IsWhiteSpace(s[i])
    ensures n < |s| ==> !IsWhiteSpace(s[|s| - n - 1])
  {
    if |s| > 0 && IsWhiteSpace(s[|s| - 1]) then 1 + TrailingWhiteSpace(s[..|s| - 1]) else 0
  }

  /**
   * `s.trim()`: the slice of `s` left after dropping white space at both
   * ends. It starts and ends with a non-white-space character, only white
   * space was dropped, and it is empty exactly when `s` is all white space.
   */
  function Trim(s: string): (r: string)
    ensures LeadingWhiteSpace(s) + |r| <= |s|
    ensures r == s[LeadingWhiteSpace(s)..LeadingWhiteSpace(s) + |r|]
    ensures r != [] ==> !IsWhiteSpace(r[0]) && !IsWhiteSpace(r[|r| - 1])
    ensures forall i :: LeadingWhiteSpace(s) + |r| <= i < |s| ==> IsWhiteSpace(s[i])
    ensures r == [] <==> forall i :: 0 <= i < |s| ==> IsWhiteSpace(s[i])
  {
    var a := LeadingWhiteSpace(s);
    var t := s[a..];
    var b := |t| - TrailingWhiteSpace(t);
    var r := t[..b];
    assert r == s[a..a + b];
    assert forall i :: a + b <= i < |s| ==> s[i] == t[i - a];
    r
  }

  /** Trimming cannot create an occurrence. */
  lemma TrimKeepsAbsence(s: string, p: string)
    ensures Occurs(Trim(s), p) ==> Occurs(s, p)
  {
    var a := LeadingWhiteSpace(s);
    OccursInSlice(s, a, a + |Trim(s)|, p);
  }

  /** Trimming drops only white space: every other character keeps its count. */
  lemma TrimKeeps(s: string)
    ensures multiset(Trim(s)) <= multiset(s)
    ensures forall c :: !IsWhiteSpace(c) ==> multiset(Trim(s))[c] == multiset(s)[c]
  {
    var a := LeadingWhiteSpace(s);
    var r := Trim(s);
    var e := a + |r|;
    assert s == s[..a] + r + s[e..];
    forall c | !IsWhiteSpace(c)
      ensures multiset(r)[c] == multiset(s)[c]
    {
      assert c !in s[..a];
      assert c !in s[e..];
    }
  }

  /** A string without surrounding white space is its own trim. */
  lemma TrimOfTrimmed(s: string)
    requires s != [] ==> !IsWhiteSpace(s[0]) && !IsWhiteSpace(s[|s| - 1])
    ensures Trim(s) == s
  {
    if s != [] {
      assert LeadingWhiteSpace(s) == 0;
      assert TrailingWhiteSpace(s) == 0;
    }
  }

  // ---------------------------------------------------------------------
  // String.prototype.split with a string separator, and Array.prototype.join
  // ---------------------------------------------------------------------

  /** `parts.join(sep)`. */
  function Join(parts: seq<string>, sep: string): string {
    if |parts| == 0 then ""
    else if |parts| == 1 then parts[0]
    else parts[0] + sep + Join(parts[1..], sep)
  }

  /**
   * `s.split(sep)` for a non-empty string separator: the separator is
   * searched left to right, matches do not overlap, and there is always at
   * least one piece. Joining the pieces back with `sep` gives `s`.
   */
  function Split(s: string, sep: string): (r: seq<string>)
    requires sep != []
    ensures |r| >= 1
    ensures Join(r, sep) == s
    decreases |s|
  {
    if |s| < |sep| then [s]
    else if s[..|sep|] == sep then
      var t := Split(s[|sep|..], sep);
      assert s == "" + sep + s[|sep|..];
      [""] + t
    else
      var t := Split(s[1..], sep);
      assert s == [s[0]] + s[1..];
      var r := [[s[0]] + t[0]] + t[1..];
      assert r[1..] == t[1..];
      r
  }

  /** Every piece of a join is a piece of the joined string. */
  lemma {:induction false} OccursInJoin(parts: seq<string>, sep: string, k: nat, p: string)
    requires k < |parts|
    ensures Occurs(parts[k], p) ==> Occurs(Join(parts, sep), p)
    decreases |parts|
  {
    if |parts| > 1 {
      OccursInConcat(parts[0], sep + Join(parts[1..], sep), p);
      assert parts[0] + sep + Join(parts[1..], sep) == parts[0] + (sep + Join(parts[1..], sep));
      if k > 0 {
        OccursInJoin(parts[1..], sep, k - 1, p);
        OccursInConcat(parts[0] + sep, Join(parts[1..], sep), p);
      }
    }
  }

  /** No piece of a split holds the separator. */
  lemma {:induction false} SplitPiecesFree(s: string, sep: string)
    requires sep != []
    ensures forall k :: 0 <= k < |Split(s, sep)| ==> !Occurs(Split(s, sep)[k], sep)
    decreases |s|
  {
    if |s| < |sep| {
      assert Split(s, sep) == [s];
    } else if s[..|sep|] == sep {
      SplitPiecesFree(s[|sep|..], sep);
      assert Split(s, sep) == [""] + Split(s[|sep|..], sep);
    } else {
      var t := Split(s[1..], sep);
      SplitPiecesFree(s[1..], sep);
      var head := [s[0]] + t[0];
      // the head piece is a prefix of s, and s does not start with sep
      JoinStartsWithHead(t, sep);
      assert s == [s[0]] + Join(t, sep);
      assert head <= s;
      OccursCons(s[0], t[0], sep);
      assert !Occurs(head, sep);
      assert Split(s, sep) == [head] + t[1..];
    }
  }

  /** A join starts with its first piece. */
  lemma JoinStartsWithHead(parts: seq<string>, sep: string)
    requires |parts| >= 1
    ensures parts[0] <= Join(parts, sep)
  {
    if |parts| > 1 {
      assert Join(parts, sep) == parts[0] + (sep + Join(parts[1..], sep));
    }
  }

  /** The number of times `c` occurs in `s`. */
  function Count(s: string, c: char): nat {
    multiset(s)[c]
  }

  /** Splitting on one character gives one more piece than there are occurrences of it. */
  lemma {:induction false} SplitOnCharCount(s: string, c: char)
    ensures |Split(s, [c])| == Count(s, c) + 1
    decreases |s|
  {
    if |s| >= 1 {
      SplitOnCharCount(s[1..], c);
      assert s == [s[0]] + s[1..];
      assert multiset(s) == multiset{s[0]} + multiset(s[1..]);
      var t := Split(s[1..], [c]);
      if s[0] == c {
        assert s[..1] == [c];
        assert Split(s, [c]) == [""] + t;
      } else {
        assert s[..1] != [c];
        assert |Split(s, [c])| == |t|;
      }
    }
  }

  // ---------------------------------------------------------------------
  // substring and endsWith
  // ---------------------------------------------------------------------

  /** `s.substring(0, n)`: the first `n` characters, or all of `s` if shorter. */
  function Prefix(s: string, n: nat): (r: string)
    ensures r <= s
    ensures |r| == if |s| < n then |s| else n
  {
    if |s| <= n then s else s[..n]
  }

  /**
   * `s.endsWith(suffix)`: `s` is long enough and its last `|suffix|` code
   * units are `suffix`; for a one-character suffix, the last character is it.
   */
  predicate EndsWith(s: string, suffix: string)
    ensures EndsWith(s, suffix) ==> |suffix| <= |s|
    ensures |suffix| == 1 ==> (EndsWith(s, suffix) <==> s != [] && s[|s| - 1] == suffix[0])
  {
    |suffix| <= |s| && s[|s| - |suffix|..] == suffix
  }
}
