/**
 * The string operations the form handlers and the marketplace search use:
 * `split` on one separator character and its inverse `join`, `trim`,
 * `toLowerCase` and `includes`, with JavaScript's meaning of each.
 */
module Text {

  /**
   * The characters `String.prototype.trim` removes: the ECMAScript
   * WhiteSpace (TAB, VT, FF, SP, NBSP, ZWNBSP and the space separators of
   * Unicode category Zs) and LineTerminator (LF, CR, LS, PS) code points.
   */
  const SpaceCodes: set<int> :=
    {9, 10, 11, 12, 13, 32, 0xA0, 0x1680, 0x2000, 0x2001, 0x2002, 0x2003, 0x2004, 0x2005,
     0x2006, 0x2007, 0x2008, 0x2009, 0x200A, 0x2028, 0x2029, 0x202F, 0x205F, 0x3000, 0xFEFF}

  predicate IsSpace(c: char) {
    c as int in SpaceCodes
  }

  predicate AllSpace(s: string) {
    forall i :: 0 <= i < |s| ==> IsSpace(s[i])
  }

  /** Neither the first nor the last character is white space. */
  predicate Trimmed(s: string) {
    s == [] || (!IsSpace(s[0]) && !IsSpace(s[|s| - 1]))
  }

  /** `String.prototype.trimStart`: the input from its first non-space character on. */
  function TrimStart(s: string): string {
    if s != [] && IsSpace(s[0]) then TrimStart(s[1..]) else s
  }

  /** `TrimStart` returns a suffix of its input that does not start with white space, and cuts away only white space. */
  lemma {:induction false} TrimStartShape(s: string)
    ensures var r := TrimStart(s);
            && |r| <= |s| && r == s[|s| - |r|..]
            && AllSpace(s[..|s| - |r|])
            && (r == [] || !IsSpace(r[0]))
  {
    if s != [] && IsSpace(s[0]) {
      TrimStartShape(s[1..]);
      var r := TrimStart(s[1..]);
      assert s[..|s| - |r|] == [s[0]] + s[1..][..|s[1..]| - |r|];
    }
  }

  /** `String.prototype.trimEnd`: the input up to its last non-space character. */
  function TrimEnd(s: string): string {
    if s != [] && IsSpace(s[|s| - 1]) then TrimEnd(s[..|s| - 1]) else s
  }

  /** `TrimEnd` returns a prefix of its input that does not end with white space, and cuts away only white space. */
  lemma {:induction false} TrimEndShape(s: string)
    ensures var r := TrimEnd(s);
            && |r| <= |s| && r == s[..|r|]
            && AllSpace(s[|r|..])
            && (r == [] || !IsSpace(r[|r| - 1]))
  {
    if s != [] && IsSpace(s[|s| - 1]) {
      var p := s[..|s| - 1];
      TrimEndShape(p);
      var r := TrimEnd(p);
      assert s[|r|..] == p[|r|..] + [s[|s| - 1]];
    }
  }

  /**
   * `String.prototype.trim`: the input with its leading and trailing white
   * space removed. It is empty exactly when the input is all white space,
   * otherwise starts and ends with a non-space character, and holds only
   * characters of the input.
   */
  function Trim(s: string): (r: string)
    ensures Trimmed(r)
    ensures r == [] <==> AllSpace(s)
    ensures forall i :: 0 <= i < |r| ==> r[i] in s
  {
    var t := TrimStart(s);
    TrimStartShape(s);
    TrimEndShape(t);
    var r := TrimEnd(t);
    assert forall i :: 0 <= i < |r| ==> r[i] == s[|s| - |t| + i];
    if r == [] then
      assert s == s[..|s| - |t|] + t[|r|..];
      r
    else
      assert r[0] == t[0];
      r
  }

  /** What `Trim` removes is white space on either side of a contiguous part of the input. */
  lemma TrimSlice(s: string)
    ensures var a, r := |s| - |TrimStart(s)|, Trim(s);
            && 0 <= a && a + |r| <= |s| && r == s[a..a + |r|]
            && AllSpace(s[..a]) && AllSpace(s[a + |r|..])
  {
    var t := TrimStart(s);
    TrimStartShape(s);
    TrimEndShape(t);
    PrefixOfSuffix(s, t, TrimEnd(t));
  }

  /** A prefix `r` of a suffix `t` of `s` is a contiguous part of `s`, followed in `s` by the rest of `t`. */
  lemma PrefixOfSuffix(s: string, t: string, r: string)
    requires |t| <= |s| && t == s[|s| - |t|..]
    requires |r| <= |t| && r == t[..|r|]
    ensures var a := |s| - |t|; r == s[a..a + |r|] && s[a + |r|..] == t[|r|..]
  {
  }

  /** Trimming a trimmed string changes nothing, so `Trim` is idempotent. */
  lemma TrimOfTrimmed(s: string)
    requires Trimmed(s)
    ensures Trim(s) == s
  {
  }

  /** `Trim` adds no character, so a character missing from the input is missing from the result. */
  lemma TrimExcludes(s: string, c: char)
    requires c !in s
    ensures c !in Trim(s)
  {
  }

  /** ASCII model of `toLowerCase` for a single character. */
  function LowerChar(c: char): (r: char)
    ensures !('A' <= r <= 'Z')
    ensures 'A' <= c <= 'Z' ==> r as int == c as int + 32
    ensures !('A' <= c <= 'Z') ==> r == c
  {
    if 'A' <= c <= 'Z' then (c as int + 32) as char else c
  }

  /**
   * `String.prototype.toLowerCase`, character by character: same length,
   * each character lowered in place, so no upper-case letter is left.
   */
  function Lower(s: string): (r: string)
    ensures |r| == |s|
    ensures forall k :: 0 <= k < |s| ==> r[k] == LowerChar(s[k])
  {
    if s == [] then [] else [LowerChar(s[0])] + Lower(s[1..])
  }

  /** Lowering twice is lowering once. */
  lemma LowerIdempotent(s: string)
    ensures Lower(Lower(s)) == Lower(s)
  {
    assert forall k :: 0 <= k < |s| ==> LowerChar(Lower(s)[k]) == Lower(s)[k];
  }

  predicate StartsWith(s: string, prefix: string) {
    |prefix| <= |s| && s[..|prefix|] == prefix
  }

  /** `String.prototype.includes`: `sub` occurs in `s` at some position. */
  predicate Includes(s: string, sub: string)
    decreases |s|
  {
    StartsWith(s, sub) || (s != [] && Includes(s[1..], sub))
  }

  /** `Includes` is the existence of a position where `sub` occurs. */
  lemma {:induction false} IncludesAt(s: string, sub: string)
    ensures Includes(s, sub) <==>
              exists i :: 0 <= i <= |s| - |sub| && StartsWith(s[i..], sub)
  {
    if Includes(s, sub) {
      if !StartsWith(s, sub) {
        IncludesAt(s[1..], sub);
        var i :| 0 <= i <= |s[1..]| - |sub| && StartsWith(s[1..][i..], sub);
        assert s[1..][i..] == s[i + 1..];
      } else {
        assert s[0..] == s;
      }
    }
    if exists i :: 0 <= i <= |s| - |sub| && StartsWith(s[i..], sub) {
      var i :| 0 <= i <= |s| - |sub| && StartsWith(s[i..], sub);
      if i == 0 {
        assert s[0..] == s;
      } else {
        assert s[1..][i - 1..] == s[i..];
        IncludesAt(s[1..], sub);
      }
    }
  }

  /**
   * `String.prototype.split` on a one-character separator: the pieces
   * between separators, including empty ones, and one piece for an input
   * without any separator (so `""` splits to `[""]`).
   */
  function Split(s: string, sep: char): (r: seq<string>)
    ensures |r| >= 1
    decreases |s|
  {
    if s == [] then [[]]
    else
      var rest := Split(s[1..], sep);
      if s[0] == sep then [[]] + rest
      else [[s[0]] + rest[0]] + rest[1..]
  }

  /** There is one piece more than there are separators, and no piece holds one. */
  lemma {:induction false} SplitShape(s: string, sep: char)
    ensures |Split(s, sep)| == multiset(s)[sep] + 1
    ensures forall k :: 0 <= k < |Split(s, sep)| ==> sep !in Split(s, sep)[k]
  {
    if s != [] {
      var c, t := s[0], s[1..];
      assert s == [c] + t;
      SplitShape(t, sep);
      SplitCons(c, t, sep);
      var rest := Split(t, sep);
      if c != sep {
        assert sep !in [c] + rest[0];
        forall k | 1 <= k < |rest| ensures sep !in Split(s, sep)[k] {
          assert Split(s, sep)[k] == rest[k];
        }
      } else {
        forall k | 1 <= k < |Split(s, sep)| ensures sep !in Split(s, sep)[k] {
          assert Split(s, sep)[k] == rest[k - 1];
        }
      }
    }
  }

  /** `Array.prototype.join` with a one-character separator. */
  function Join(parts: seq<string>, sep: char): string
    requires |parts| >= 1
  {
    if |parts| == 1 then parts[0] else parts[0] + [sep] + Join(parts[1..], sep)
  }

  /** Joining the pieces of a split gives back the input. */
  lemma {:induction false} JoinSplit(s: string, sep: char)
    ensures Join(Split(s, sep), sep) == s
  {
    if s != [] {
      var rest := Split(s[1..], sep);
      JoinSplit(s[1..], sep);
      assert s == [s[0]] + s[1..];
      if s[0] != sep {
        if |rest| == 1 {
        } else {
          assert ([s[0]] + rest[0]) + [sep] + Join(rest[1..], sep)
              == [s[0]] + (rest[0] + [sep] + Join(rest[1..], sep));
        }
      }
    }
  }

  /** Splitting a join of separator-free pieces gives back the pieces. */
  lemma {:induction false} SplitJoin(parts: seq<string>, sep: char)
    requires |parts| >= 1
    requires forall k :: 0 <= k < |parts| ==> sep !in parts[k]
    ensures Split(Join(parts, sep), sep) == parts
  {
    if |parts| == 1 {
      SplitNoSep(parts[0], sep);
    } else {
      SplitJoin(parts[1..], sep);
      SplitPrepend(parts[0], Join(parts[1..], sep), sep);
    }
  }

  /** A string without the separator splits into itself alone. */
  lemma {:induction false} SplitNoSep(s: string, sep: char)
    requires sep !in s
    ensures Split(s, sep) == [s]
  {
    if s != [] {
      SplitNoSep(s[1..], sep);
      assert [s[0]] + s[1..] == s;
    }
  }

  /** Splitting `a + [sep] + b`, where `a` has no separator, puts `a` in front of the pieces of `b`. */
  lemma {:induction false} SplitPrepend(a: string, b: string, sep: char)
    requires sep !in a
    ensures Split(a + [sep] + b, sep) == [a] + Split(b, sep)
  {
    var s := a + [sep] + b;
    if a == [] {
      assert s[1..] == b;
    } else {
      assert s[1..] == a[1..] + [sep] + b;
      SplitPrepend(a[1..], b, sep);
      assert [a[0]] + a[1..] == a;
    }
  }

  /** A join ends with its last piece, and with the separator just before it when there are several. */
  lemma {:induction false} JoinEndsWithLast(parts: seq<string>, sep: char)
    requires |parts| >= 1
    ensures var j, last := Join(parts, sep), parts[|parts| - 1];
            |last| <= |j| && j[|j| - |last|..] == last
            && (|parts| > 1 ==> |last| < |j| && j[|j| - |last| - 1] == sep)
  {
    if |parts| > 1 {
      var rest := parts[1..];
      JoinEndsWithLast(rest, sep);
      var j, jr := Join(parts, sep), Join(rest, sep);
      var last := parts[|parts| - 1];
      assert last == rest[|rest| - 1];
      assert j == (parts[0] + [sep]) + jr;
      assert j[|j| - |last|..] == jr[|jr| - |last|..];
      if |rest| == 1 {
        assert jr == last;
      } else {
        assert j[|j| - |last| - 1] == jr[|jr| - |last| - 1];
      }
    }
  }

  /** Splitting after `a + [sep]` ends with `b` when `b` holds no separator. */
  lemma SplitEndsAfterLastSep(a: string, b: string, sep: char)
    requires sep !in b
    ensures var r := Split(a + [sep] + b, sep); r[|r| - 1] == b
  {
    SplitConcat(a, b, sep);
    SplitNoSep(b, sep);
  }

  /** `split` on a non-empty string, one character at a time. */
  lemma SplitCons(c: char, t: string, sep: char)
    ensures Split([c] + t, sep)
            == if c == sep then [[]] + Split(t, sep) else [[c] + Split(t, sep)[0]] + Split(t, sep)[1..]
  {
    assert ([c] + t)[0] == c && ([c] + t)[1..] == t;
  }

  /** One step of `SplitConcat`: when `u` splits like `t` followed by `rb`, so do `[c] + u` and `[c] + t`. */
  lemma SplitConcatStep(c: char, u: string, t: string, rb: seq<string>, sep: char)
    requires Split(u, sep) == Split(t, sep) + rb
    ensures Split([c] + u, sep) == Split([c] + t, sep) + rb
  {
    SplitCons(c, u, sep);
    SplitCons(c, t, sep);
    var rt := Split(t, sep);
    if c == sep {
      ConsAssoc(rt, rb);
    } else {
      HeadAssoc([c] + rt[0], rt, rb);
    }
  }

  lemma ConsAssoc(rt: seq<string>, rb: seq<string>)
    ensures [[]] + (rt + rb) == ([[]] + rt) + rb
  {
  }

  lemma HeadAssoc(h: string, rt: seq<string>, rb: seq<string>)
    requires |rt| >= 1
    ensures [h] + (rt + rb)[1..] == ([h] + rt[1..]) + rb
  {
    assert (rt + rb)[1..] == rt[1..] + rb;
  }

  /** Splitting at one separator between `a` and `b` gives the pieces of `a`, then those of `b`. */
  lemma {:induction false} SplitConcat(a: string, b: string, sep: char)
    ensures Split(a + [sep] + b, sep) == Split(a, sep) + Split(b, sep)
  {
    if a == [] {
      assert a + [sep] + b == [sep] + b;
      SplitCons(sep, b, sep);
    } else {
      var t := a[1..];
      assert a == [a[0]] + t && a + [sep] + b == [a[0]] + (t + [sep] + b);
      SplitConcat(t, b, sep);
      SplitConcatStep(a[0], t + [sep] + b, t, Split(b, sep), sep);
    }
  }

  /** Every character is white space or the separator. */
  predicate SpaceOrSep(s: string, sep: char) {
    forall i :: 0 <= i < |s| ==> s[i] == sep || IsSpace(s[i])
  }

  /** A join is white space and separators alone exactly when every piece is blank. */
  lemma {:induction false} JoinBlank(parts: seq<string>, sep: char)
    requires |parts| >= 1
    requires forall k :: 0 <= k < |parts| ==> sep !in parts[k]
    ensures SpaceOrSep(Join(parts, sep), sep) <==> forall k :: 0 <= k < |parts| ==> AllSpace(parts[k])
  {
    var p := parts[0];
    assert SpaceOrSep(p, sep) <==> AllSpace(p);
    if |parts| > 1 {
      var rest := parts[1..];
      JoinBlank(rest, sep);
      var j, jr := Join(parts, sep), Join(rest, sep);
      assert j == p + [sep] + jr;
      assert SpaceOrSep(j, sep) <==> SpaceOrSep(p, sep) && SpaceOrSep(jr, sep) by {
        forall i | 0 <= i < |p| ensures j[i] == p[i] { }
        forall i | 0 <= i < |jr| ensures j[|p| + 1 + i] == jr[i] { }
        if SpaceOrSep(j, sep) {
          forall i | 0 <= i < |p| ensures p[i] == sep || IsSpace(p[i]) { assert j[i] == p[i]; }
          forall i | 0 <= i < |jr| ensures jr[i] == sep || IsSpace(jr[i]) { assert j[|p| + 1 + i] == jr[i]; }
        }
        if SpaceOrSep(p, sep) && SpaceOrSep(jr, sep) {
          forall i | 0 <= i < |j| ensures j[i] == sep || IsSpace(j[i]) {
            if i > |p| { assert j[i] == jr[i - |p| - 1]; }
          }
        }
      }
      assert (forall k :: 0 <= k < |parts| ==> AllSpace(parts[k]))
             <==> AllSpace(p) && forall k :: 0 <= k < |rest| ==> AllSpace(rest[k]) by {
        forall k | 0 <= k < |rest| ensures rest[k] == parts[k + 1] { }
      }
    }
  }
}
