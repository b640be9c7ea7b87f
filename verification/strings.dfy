/** String helpers with JavaScript's semantics: `trim`, `split`, `join`,
    `lastIndexOf`, `startsWith`, `endsWith`, `includes`, ASCII `toLowerCase`. */
module Strings {

  /** The code points JavaScript's `trim` removes and its regular expressions
      match with `\s` (WhiteSpace and LineTerminator). */
  predicate IsSpace(c: char) {
    c == ' ' || c == '\t' || c == '\n' || c == '\r' || c == '\U{000B}' || c == '\U{000C}'
    || c == '\U{00A0}' || c == '\U{1680}' || ('\U{2000}' <= c <= '\U{200A}')
    || c == '\U{2028}' || c == '\U{2029}' || c == '\U{202F}' || c == '\U{205F}'
    || c == '\U{3000}' || c == '\U{FEFF}'
  }

  predicate Blank(s: string) {
    forall i | 0 <= i < |s| :: IsSpace(s[i])
  }

  function TrimStart(s: string): (r: string)
    ensures |r| > 0 ==> !IsSpace(r[0])
  {
    if |s| > 0 && IsSpace(s[0]) then TrimStart(s[1..]) else s
  }

  function TrimEnd(s: string): (r: string)
    ensures |r| > 0 ==> !IsSpace(r[|r| - 1])
  {
    if |s| > 0 && IsSpace(s[|s| - 1]) then TrimEnd(s[..|s| - 1]) else s
  }

  /** `s.trim()` */
  function Trim(s: string): string {
    TrimEnd(TrimStart(s))
  }

  /** `TrimEnd` keeps a prefix. */
  lemma {:induction false} TrimEndPrefix(s: string)
    ensures |TrimEnd(s)| <= |s| && TrimEnd(s) == s[..|TrimEnd(s)|]
  {
    if |s| > 0 && IsSpace(s[|s| - 1]) {
      var u := s[..|s| - 1];
      TrimEndPrefix(u);
      assert u[..|TrimEnd(u)|] == s[..|TrimEnd(u)|];
    }
  }

  /** A non-empty trimmed string neither starts nor ends with whitespace. */
  lemma TrimMargins(s: string)
    ensures |Trim(s)| > 0 ==> !IsSpace(Trim(s)[0]) && !IsSpace(Trim(s)[|Trim(s)| - 1])
  {
    var t := TrimStart(s);
    var r := TrimEnd(t);
    if |r| > 0 {
      TrimEndPrefix(t);
      assert r[0] == t[0];
    }
  }

  lemma {:induction false} TrimStartEmptyIffBlank(s: string)
    ensures TrimStart(s) == "" <==> Blank(s)
  {
    if |s| > 0 {
      TrimStartEmptyIffBlank(s[1..]);
      assert Blank(s) <==> IsSpace(s[0]) && Blank(s[1..]) by {
        assert forall i | 0 < i < |s| :: s[i] == s[1..][i - 1];
      }
    }
  }

  lemma {:induction false} TrimEndEmptyIffBlank(s: string)
    ensures TrimEnd(s) == "" <==> Blank(s)
  {
    if |s| > 0 {
      var u := s[..|s| - 1];
      TrimEndEmptyIffBlank(u);
      assert Blank(s) <==> IsSpace(s[|s| - 1]) && Blank(u) by {
        assert forall i | 0 <= i < |s| - 1 :: s[i] == u[i];
      }
    }
  }

  /** `!s.trim()` holds exactly for blank strings. */
  lemma TrimEmptyIffBlank(s: string)
    ensures Trim(s) == "" <==> Blank(s)
  {
    var t := TrimStart(s);
    TrimStartEmptyIffBlank(s);
    TrimEndEmptyIffBlank(t);
    assert Blank(t) <==> t == "";
  }

  lemma TrimStartOfUnspaced(s: string)
    requires |s| == 0 || !IsSpace(s[0])
    ensures TrimStart(s) == s
  {
  }

  lemma TrimEndOfUnspaced(s: string)
    requires |s| == 0 || !IsSpace(s[|s| - 1])
    ensures TrimEnd(s) == s
  {
  }

  /** A character outside the Basic Multilingual Plane, which UTF-16 writes
      as a surrogate pair. */
  predicate Astral(c: char) {
    c as int >= 0x1_0000
  }

  /** The positions of a string's astral characters. */
  function AstralPositions(s: string): set<nat>
  {
    set i: nat | i < |s| && Astral(s[i])
  }

  /** A set of positions below `n` has at most `n` members, and exactly `n`
      when it holds all of them. */
  lemma {:induction false} PositionsBelow(r: set<nat>, n: nat)
    requires forall i | i in r :: i < n
    ensures |r| <= n
    ensures (forall i: nat | i < n :: i in r) ==> |r| == n
  {
    if n > 0 {
      var r' := r - {n - 1};
      PositionsBelow(r', n - 1);
      if n - 1 in r {
        assert r == r' + {n - 1};
      } else {
        assert r == r';
      }
    } else {
      assert r == {};
    }
  }

  /** JavaScript's `s.length`: the number of UTF-16 code units, one per
      character of the Basic Multilingual Plane and two per astral one. */
  function Utf16Length(s: string): (n: nat)
    ensures |s| <= n <= 2 * |s|
  {
    PositionsBelow(AstralPositions(s), |s|);
    |s| + |AstralPositions(s)|
  }

  /** Without astral characters `.length` counts characters. */
  lemma Utf16LengthOfPlain(s: string)
    requires forall i | 0 <= i < |s| :: !Astral(s[i])
    ensures Utf16Length(s) == |s|
  {
    assert AstralPositions(s) == {};
  }

  /** A string of astral characters only has twice as many code units. */
  lemma Utf16LengthOfAstral(s: string)
    requires forall i | 0 <= i < |s| :: Astral(s[i])
    ensures Utf16Length(s) == 2 * |s|
  {
    PositionsBelow(AstralPositions(s), |s|);
  }

  /** Trimming twice is trimming once. */
  lemma TrimIdempotent(s: string)
    ensures Trim(Trim(s)) == Trim(s)
  {
    var t := Trim(s);
    TrimMargins(s);
    TrimStartOfUnspaced(t);
    TrimEndOfUnspaced(t);
  }

  /** `s.startsWith(p)` */
  predicate StartsWith(s: string, p: string) {
    |p| <= |s| && s[..|p|] == p
  }

  /** `s.endsWith(p)` */
  predicate EndsWith(s: string, p: string) {
    |p| <= |s| && s[|s| - |p|..] == p
  }

  /** `s.includes(p)` */
  predicate Contains(s: string, p: string) {
    exists i | 0 <= i <= |s| - |p| :: OccursAt(s, p, i)
  }

  predicate OccursAt(s: string, p: string, i: int) {
    0 <= i <= |s| - |p| && s[i..i + |p|] == p
  }

  /** `s.split(c)` for a one-character separator: never empty; the parts
      joined with `c` give `s` back. */
  function Split(s: string, c: char): (r: seq<string>)
    ensures |r| > 0
  {
    if |s| == 0 then [""]
    else
      var rest := Split(s[1..], c);
      if s[0] == c then [""] + rest else [[s[0]] + rest[0]] + rest[1..]
  }

  /** `parts.join(c)` */
  function Join(parts: seq<string>, c: char): string {
    if |parts| == 0 then ""
    else if |parts| == 1 then parts[0]
    else parts[0] + [c] + Join(parts[1..], c)
  }

  predicate Free(s: string, c: char) {
    forall i | 0 <= i < |s| :: s[i] != c
  }

  /** No part of a split contains the separator. */
  lemma {:induction false} SplitPartsFree(s: string, c: char)
    ensures forall k | 0 <= k < |Split(s, c)| :: Free(Split(s, c)[k], c)
  {
    if |s| > 0 {
      SplitPartsFree(s[1..], c);
    }
  }

  /** `s.split(c).join(c) === s` */
  lemma {:induction false} JoinSplit(s: string, c: char)
    ensures Join(Split(s, c), c) == s
  {
    if |s| > 0 {
      var rest := Split(s[1..], c);
      JoinSplit(s[1..], c);
      if s[0] == c {
        assert Split(s, c) == [""] + rest;
        assert ([""] + rest)[1..] == rest;
        assert s == [s[0]] + s[1..];
      } else {
        var r := [[s[0]] + rest[0]] + rest[1..];
        if |rest| == 1 {
          assert Join(r, c) == [s[0]] + rest[0];
        } else {
          assert r[1..] == rest[1..];
          assert Join(rest, c) == rest[0] + [c] + Join(rest[1..], c);
        }
      }
    }
  }

  /** Splitting a joined list of separator-free parts gives the parts back. */
  lemma {:induction false} SplitJoin(parts: seq<string>, c: char)
    requires |parts| > 0
    requires forall k | 0 <= k < |parts| :: Free(parts[k], c)
    ensures Split(Join(parts, c), c) == parts
  {
    if |parts| == 1 {
      SplitFree(parts[0], c);
    } else {
      SplitJoin(parts[1..], c);
      SplitPrefix(parts[0], Join(parts[1..], c), c);
      assert [parts[0]] + parts[1..] == parts;
    }
  }

  lemma {:induction false} SplitFree(s: string, c: char)
    requires Free(s, c)
    ensures Split(s, c) == [s]
  {
    if |s| > 0 {
      SplitFree(s[1..], c);
      assert [s[0]] + s[1..] == s;
    }
  }

  lemma {:induction false} SplitPrefix(p: string, t: string, c: char)
    requires Free(p, c)
    ensures Split(p + [c] + t, c) == [p] + Split(t, c)
  {
    if |p| == 0 {
      assert p + [c] + t == [c] + t;
      assert ([c] + t)[1..] == t;
    } else {
      SplitPrefix(p[1..], t, c);
      assert (p + [c] + t)[1..] == p[1..] + [c] + t;
      assert [p[0]] + p[1..] == p;
    }
  }

  /** `s.lastIndexOf(c)`: -1 when absent. */
  function LastIndexOf(s: string, c: char): (r: int)
    ensures -1 <= r < |s|
    ensures r >= 0 ==> s[r] == c
    ensures forall i | r < i < |s| :: s[i] != c
  {
    if |s| == 0 then -1
    else if s[|s| - 1] == c then |s| - 1
    else LastIndexOf(s[..|s| - 1], c)
  }

  /** The contract of `LastIndexOf` pins its value down. */
  lemma LastIndexOfUnique(s: string, c: char, r: int)
    requires -1 <= r < |s|
    requires r >= 0 ==> s[r] == c
    requires forall i | r < i < |s| :: s[i] != c
    ensures LastIndexOf(s, c) == r
  {
  }

  /** The last part of a split is what follows the last separator, and a
      split has one part exactly when the separator does not occur. */
  lemma {:induction false} SplitLast(s: string, c: char)
    ensures Split(s, c)[|Split(s, c)| - 1] == s[LastIndexOf(s, c) + 1..]
    ensures |Split(s, c)| == 1 <==> LastIndexOf(s, c) == -1
  {
    if |s| > 0 {
      var t := s[1..];
      var rest := Split(t, c);
      SplitLast(t, c);
      var q := LastIndexOf(t, c);
      var r := Split(s, c);
      if q >= 0 {
        assert s[q + 1] == t[q];
        LastIndexOfUnique(s, c, q + 1);
        assert s[q + 2..] == t[q + 1..];
        assert |r| == |rest| + 1 || |r| == |rest|;
        assert r[|r| - 1] == rest[|rest| - 1];
      } else if s[0] == c {
        LastIndexOfUnique(s, c, 0);
        assert r == [""] + rest;
      } else {
        LastIndexOfUnique(s, c, -1);
        assert rest[0] == t by { assert t[0..] == t; }
        assert r == [[s[0]] + t];
        assert [s[0]] + t == s[0..];
      }
    }
  }

  /** `s.substring(0, s.lastIndexOf(c))`; `substring` clamps -1 to 0. */
  function BeforeLast(s: string, c: char): (r: string)
    ensures |r| <= |s| && r == s[..|r|]
  {
    var i := LastIndexOf(s, c);
    if i < 0 then "" else s[..i]
  }

  /** The directory of a path is recovered from `dir + "/" + name` when the
      name has no slash. */
  lemma BeforeLastOfJoined(dir: string, name: string, c: char)
    requires Free(name, c)
    ensures BeforeLast(dir + [c] + name, c) == dir
  {
    var s := dir + [c] + name;
    var i := LastIndexOf(s, c);
    assert s[|dir|] == c;
    assert forall j | |dir| < j < |s| :: s[j] == name[j - |dir| - 1];
    assert s[..|dir|] == dir;
  }

  /** ASCII `toLowerCase` */
  function LowerChar(c: char): char {
    if 'A' <= c <= 'Z' then (c as int + 32) as char else c
  }

  function ToLower(s: string): (r: string)
    ensures |r| == |s|
    ensures forall i | 0 <= i < |s| :: r[i] == LowerChar(s[i])
  {
    if |s| == 0 then "" else [LowerChar(s[0])] + ToLower(s[1..])
  }

  /** Lowering commutes with dropping a prefix. */
  lemma ToLowerSuffix(s: string, k: nat)
    requires k <= |s|
    ensures ToLower(s)[k..] == ToLower(s[k..])
  {
  }

  /** A string without upper-case letters is its own lowering. */
  lemma ToLowerOfUnshifted(s: string)
    requires forall i | 0 <= i < |s| :: !('A' <= s[i] <= 'Z')
    ensures ToLower(s) == s
  {
  }

  /** Lowering is idempotent, so mapping a lowered name again gives the same. */
  lemma ToLowerIdempotent(s: string)
    ensures ToLower(ToLower(s)) == ToLower(s)
  {
  }
}
