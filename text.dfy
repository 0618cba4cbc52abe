/**
 * The JavaScript string primitives the scripts rely on, on `seq<char>`:
 * `trim`, `startsWith`, `includes`, `split` on one character, global
 * `replace` of a literal pattern, and `toLowerCase` restricted to ASCII.
 */
module Text {
  import opened Common

  /** JavaScript's WhiteSpace and LineTerminator code points: what `\s` matches and `trim` removes. */
  predicate IsSpace(c: char)
  {
    var n := c as int;
    (0x09 <= n <= 0x0D) || n == 0x20 || n == 0xA0 || n == 0x1680 || (0x2000 <= n <= 0x200A)
    || n == 0x2028 || n == 0x2029 || n == 0x202F || n == 0x205F || n == 0x3000 || n == 0xFEFF
  }

  predicate StartsWith(s: string, p: string)
  {
    |p| <= |s| && s[..|p|] == p
  }

  /** `s.includes(p)`: `p` occurs at some position of `s`. */
  predicate Contains(s: string, p: string)
  {
    exists i | 0 <= i <= |s| - |p| :: OccursAt(s, p, i)
  }

  predicate OccursAt(s: string, p: string, i: int)
  {
    0 <= i <= |s| - |p| && s[i..i + |p|] == p
  }

  function LowerChar(c: char): char
  {
    if 'A' <= c <= 'Z' then (c as int + 32) as char else c
  }

  /** `toLowerCase`, for the ASCII letters only. */
  function Lower(s: string): (r: string)
    ensures |r| == |s|
    ensures forall k :: 0 <= k < |s| ==> r[k] == LowerChar(s[k])
  {
    seq(|s|, k requires 0 <= k < |s| => LowerChar(s[k]))
  }

  predicate IsTrimmed(s: string)
  {
    s == [] || (!IsSpace(s[0]) && !IsSpace(s[|s| - 1]))
  }

  function TrimStart(s: string): (r: string)
    ensures |r| <= |s| && r == s[|s| - |r|..]
    ensures forall k :: 0 <= k < |s| - |r| ==> IsSpace(s[k])
    ensures r == [] || !IsSpace(r[0])
  {
    if s != [] && IsSpace(s[0]) then TrimStart(s[1..]) else s
  }

  function TrimEnd(s: string): (r: string)
    ensures |r| <= |s| && r == s[..|r|]
    ensures forall k :: |r| <= k < |s| ==> IsSpace(s[k])
    ensures r == [] || !IsSpace(r[|r| - 1])
  {
    if s != [] && IsSpace(s[|s| - 1]) then TrimEnd(s[..|s| - 1]) else s
  }

  /**
   * `s.trim()`: the slice of `s` left once the white space at both ends is
   * removed; what is removed is white space only, and what is left starts
   * and ends with something else.
   */
  function Trim(s: string): (r: string)
    ensures IsTrimmed(r)
    ensures |r| <= |s|
    ensures IsTrimmed(s) ==> r == s
  {
    TrimEnd(TrimStart(s))
  }

  /** What `trim` leaves is a slice of the input with only white space around it. */
  lemma TrimIsSlice(s: string)
    ensures exists i :: SpaceAround(s, Trim(s), i)
  {
    var t := TrimStart(s);
    var r := TrimEnd(t);
    assert r == s[|s| - |t|..][..|r|];
    assert SpaceAround(s, r, |s| - |t|) && r == Trim(s);
  }

  /** `r` sits at offset `i` of `s` with nothing but white space on either side. */
  predicate SpaceAround(s: string, r: string, i: int)
  {
    0 <= i <= |s| - |r| && r == s[i..i + |r|]
    && (forall k :: 0 <= k < i ==> IsSpace(s[k]))
    && (forall k :: i + |r| <= k < |s| ==> IsSpace(s[k]))
  }

  /** `parts.join(sep)`. */
  function Join(parts: seq<string>, sep: char): string
  {
    if parts == [] then ""
    else if |parts| == 1 then parts[0]
    else parts[0] + [sep] + Join(parts[1..], sep)
  }

  /**
   * `s.split(sep)`: the pieces between the separators, at least one (the
   * empty string splits into `[""]`), none holding the separator.
   */
  function Split(s: string, sep: char): (parts: seq<string>)
    ensures |parts| >= 1
    ensures forall k :: 0 <= k < |parts| ==> sep !in parts[k]
  {
    if s == [] then [""]
    else
      var rest := Split(s[1..], sep);
      if s[0] == sep then [""] + rest else [[s[0]] + rest[0]] + rest[1..]
  }

  /** Joining the pieces of a split with the separator gives the text back. */
  lemma {:induction false} JoinSplit(s: string, sep: char)
    ensures Join(Split(s, sep), sep) == s
  {
    if s != [] {
      var rest := Split(s[1..], sep);
      JoinSplit(s[1..], sep);
      if s[0] == sep {
        assert ([""] + rest)[1..] == rest;
      } else {
        JoinConsFirst(s[0], rest, sep);
      }
    }
  }

  lemma JoinConsFirst(c: char, parts: seq<string>, sep: char)
    requires |parts| >= 1
    ensures Join([[c] + parts[0]] + parts[1..], sep) == [c] + Join(parts, sep)
  {
    var p := [[c] + parts[0]] + parts[1..];
    if |parts| > 1 {
      assert p[1..] == parts[1..];
    }
  }

  /** Splitting a join of separator-free pieces gives the pieces back: `Split` and `Join` are inverse. */
  lemma {:induction false} SplitJoin(parts: seq<string>, sep: char)
    requires |parts| >= 1
    requires forall k :: 0 <= k < |parts| ==> sep !in parts[k]
    ensures Split(Join(parts, sep), sep) == parts
    decreases |Join(parts, sep)|
  {
    var s := Join(parts, sep);
    if parts[0] == [] {
      if |parts| > 1 {
        assert s == [sep] + Join(parts[1..], sep);
        assert s[1..] == Join(parts[1..], sep);
        SplitJoin(parts[1..], sep);
        assert parts == [""] + parts[1..];
      }
    } else {
      var c := parts[0][0];
      var tail := [parts[0][1..]] + parts[1..];
      assert parts[0] == [c] + parts[0][1..];
      assert [[c] + tail[0]] + tail[1..] == parts;
      JoinConsFirst(c, tail, sep);
      assert s == [c] + Join(tail, sep);
      assert s[1..] == Join(tail, sep);
      assert c != sep by { assert c == parts[0][0]; }
      forall k | 0 <= k < |tail| ensures sep !in tail[k] {
        if k == 0 {
          assert forall x :: x in tail[0] ==> x in parts[0];
        } else {
          assert tail[k] == parts[k];
        }
      }
      SplitJoin(tail, sep);
    }
  }

  /** Splitting at a separator that is known to be there splits each side independently. */
  lemma SplitAround(a: string, b: string, sep: char)
    requires sep !in a
    ensures Split(a + [sep] + b, sep) == [a] + Split(b, sep)
  {
    var parts := [a] + Split(b, sep);
    assert parts[1..] == Split(b, sep);
    JoinSplit(b, sep);
    assert Join(parts, sep) == a + [sep] + b;
    SplitJoin(parts, sep);
  }

  /**
   * `s.replace(/pat/g, rep)` for a literal pattern: left-to-right,
   * non-overlapping occurrences, each replaced once.
   */
  function ReplaceAll(s: string, pat: string, rep: string): (r: string)
    requires pat != []
    ensures (forall k :: 0 <= k < |s| ==> s[k] != pat[0]) ==> r == s
    ensures |rep| <= |pat| ==> |r| <= |s|
    decreases |s|
  {
    if |s| < |pat| then s
    else if s[..|pat|] == pat then rep + ReplaceAll(s[|pat|..], pat, rep)
    else [s[0]] + ReplaceAll(s[1..], pat, rep)
  }

  /** Index of the first `c` in `s`, or `|s|` when there is none. */
  function IndexOf(s: string, c: char): (i: nat)
    ensures i <= |s|
    ensures i < |s| ==> s[i] == c
    ensures forall k :: 0 <= k < i ==> s[k] != c
  {
    if s == [] then 0 else if s[0] == c then 0 else 1 + IndexOf(s[1..], c)
  }

  /** The first `c` is at `n` when none comes before and `n` holds one or is the end. */
  lemma IndexOfAt(s: string, c: char, n: nat)
    requires n <= |s| && (forall k :: 0 <= k < n ==> s[k] != c) && (n == |s| || s[n] == c)
    ensures IndexOf(s, c) == n
  {
  }

  /**
   * An unanchored, non-global regex search for a pattern whose match at the
   * start of a string `m` computes: the match at the first offset that has one.
   */
  function Search<T>(s: string, m: string -> Option<T>): Option<T>
  {
    if m(s).Some? then m(s) else if s == [] then None else Search(s[1..], m)
  }

  /** `m` finds a match at offset `i` of `s`. */
  predicate HitAt<T>(s: string, m: string -> Option<T>, i: int)
  {
    0 <= i <= |s| && m(s[i..]).Some?
  }

  /** Offset `i` matches and no earlier one does. */
  predicate LeftmostAt<T>(s: string, m: string -> Option<T>, i: int)
  {
    HitAt(s, m, i) && forall j :: 0 <= j < i ==> !HitAt(s, m, j)
  }

  lemma HitAtShift<T>(s: string, m: string -> Option<T>, j: int)
    requires 1 <= j <= |s|
    ensures HitAt(s, m, j) == HitAt(s[1..], m, j - 1)
  {
    assert s[1..][j - 1..] == s[j..];
  }

  /** The search finds nothing exactly when no offset matches. */
  lemma {:induction false} SearchNone<T>(s: string, m: string -> Option<T>)
    ensures Search(s, m).None? <==> forall i :: 0 <= i <= |s| ==> !HitAt(s, m, i)
  {
    assert s[0..] == s;
    if m(s).Some? {
      assert HitAt(s, m, 0);
    } else if s != [] {
      var t := s[1..];
      SearchNone(t, m);
      if Search(t, m).None? {
        forall i | 0 <= i <= |s| ensures !HitAt(s, m, i) {
          if i > 0 { HitAtShift(s, m, i); }
        }
      } else {
        var i :| 0 <= i <= |t| && HitAt(t, m, i);
        HitAtShift(s, m, i + 1);
      }
    }
  }

  /** What the search finds is the match at the leftmost matching offset. */
  lemma {:induction false} SearchSome<T>(s: string, m: string -> Option<T>)
    requires Search(s, m).Some?
    ensures exists i :: LeftmostAt(s, m, i) && Search(s, m) == m(s[i..])
  {
    assert s[0..] == s;
    if m(s).Some? {
      assert LeftmostAt(s, m, 0);
    } else {
      var t := s[1..];
      SearchSome(t, m);
      var i :| LeftmostAt(t, m, i) && Search(t, m) == m(t[i..]);
      assert t[i..] == s[i + 1..];
      forall j | 1 <= j <= i + 1 ensures HitAt(s, m, j) == HitAt(t, m, j - 1) {
        HitAtShift(s, m, j);
      }
      assert LeftmostAt(s, m, i + 1);
    }
  }
}
