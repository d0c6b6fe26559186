/**
  The parts of Python's `os.path` (POSIX flavour) and `str.lower` that the
  scripts use: joining a directory and a name, taking the last path
  component, and the lower-casing behind the paper-size test.
*/
module Paths {

  /** True if `p` starts with the path separator. */
  predicate IsAbsolute(p: string)
  {
    |p| > 0 && p[0] == '/'
  }

  /** True if `s` starts with `p`. */
  predicate HasPrefix(p: string, s: string)
  {
    |p| <= |s| && s[..|p|] == p
  }

  /** True if `s` holds no path separator. */
  predicate NoSlash(s: string)
  {
    forall k :: 0 <= k < |s| ==> s[k] != '/'
  }

  /**
    `os.path.join(a, b)`: an absolute `b` replaces `a`; otherwise `b` is
    appended to `a`, with a separator unless `a` is empty or already ends
    with one.
  */
  function Join(a: string, b: string): string
  {
    if IsAbsolute(b) then b
    else if a == [] || a[|a| - 1] == '/' then a + b
    else a + "/" + b
  }

  /**
    What `Join` gives: `b` itself when it is absolute; otherwise a path
    that starts with `a` and ends with `b`, with at most one separator
    added between them.
  */
  lemma {:induction false} JoinShape(a: string, b: string)
    ensures var r := Join(a, b);
      && (IsAbsolute(b) ==> r == b)
      && (!IsAbsolute(b) ==> HasPrefix(a, r) && |a| + |b| <= |r| <= |a| + |b| + 1 && r[|r| - |b|..] == b)
      && (!IsAbsolute(b) && |r| > |a| + |b| ==> r == a + "/" + b)
      && (!IsAbsolute(b) ==> (|r| == |a| + |b| + 1 <==> a != [] && a[|a| - 1] != '/'))
  {
    var r := Join(a, b);
    if !IsAbsolute(b) {
      if a == [] || a[|a| - 1] == '/' {
        assert r[..|a|] == a && r[|r| - |b|..] == b;
      } else {
        assert r[..|a|] == a && r[|r| - |b|..] == b;
      }
    }
  }

  /**
    `os.path.basename(p)`: everything after the last separator, that is,
    the longest suffix of `p` without a separator.
  */
  function Basename(p: string): (r: string)
    ensures NoSlash(r) && |r| <= |p| && p[|p| - |r|..] == r
    ensures |r| < |p| ==> p[|p| - |r| - 1] == '/'
  {
    if p == [] || p[|p| - 1] == '/' then []
    else Basename(p[..|p| - 1]) + [p[|p| - 1]]
  }

  /** A name without separators that follows a separator (or nothing) is the basename. */
  lemma {:induction false} BasenameOfSuffix(x: string, y: string)
    requires NoSlash(y)
    requires x == [] || x[|x| - 1] == '/'
    ensures Basename(x + y) == y
  {
    if y == [] {
      assert x + y == x;
    } else {
      var y' := y[..|y| - 1];
      assert (x + y)[..|x + y| - 1] == x + y';
      BasenameOfSuffix(x, y');
    }
  }

  /** Joining a directory and a plain file name gives a path whose basename is that name. */
  lemma {:induction false} JoinBasename(a: string, b: string)
    requires |b| > 0 && NoSlash(b)
    ensures Basename(Join(a, b)) == b
  {
    if a == [] || a[|a| - 1] == '/' {
      BasenameOfSuffix(a, b);
    } else {
      assert a + "/" + b == (a + "/") + b;
      BasenameOfSuffix(a + "/", b);
    }
  }

  /** Two relative names joined to the same directory give the same path only if they are equal. */
  lemma {:induction false} JoinInjective(a: string, b1: string, b2: string)
    requires !IsAbsolute(b1) && !IsAbsolute(b2)
    requires Join(a, b1) == Join(a, b2)
    ensures b1 == b2
  {
    var r := Join(a, b1);
    JoinShape(a, b1);
    JoinShape(a, b2);
    if a == [] || a[|a| - 1] == '/' {
      assert b1 == r[|a|..] == b2;
    } else {
      assert b1 == r[|a| + 1..] == b2;
    }
  }

  /** Joining a relative name keeps the directory as a prefix of the result. */
  lemma {:induction false} JoinKeepsPrefix(p: string, a: string, b: string)
    requires HasPrefix(p, a) && !IsAbsolute(b)
    ensures HasPrefix(p, Join(a, b))
  {
    JoinShape(a, b);
    assert Join(a, b)[..|a|] == a;
    assert Join(a, b)[..|p|] == Join(a, b)[..|a|][..|p|];
  }

  /** The lower-case form of one ASCII character; every other character is unchanged. */
  function LowerChar(c: char): (r: char)
    ensures 'A' <= c <= 'Z' ==> 'a' <= r <= 'z' && r as int == c as int + 32
    ensures !('A' <= c <= 'Z') ==> r == c
  {
    if 'A' <= c <= 'Z' then (c as int + 32) as char else c
  }

  /** `str.lower()`, restricted to ASCII letters. */
  function Lower(s: string): (r: string)
    ensures |r| == |s|
  {
    if s == [] then [] else [LowerChar(s[0])] + Lower(s[1..])
  }

  /** Lower-casing goes character by character. */
  lemma {:induction false} LowerAt(s: string, k: nat)
    requires k < |s|
    ensures Lower(s)[k] == LowerChar(s[k])
  {
    if k > 0 {
      LowerAt(s[1..], k - 1);
    }
  }

  /** The only strings that lower-case to "a5" are "a5" and "A5". */
  lemma {:induction false} LowerIsA5(s: string)
    ensures Lower(s) == "a5" <==> s == "a5" || s == "A5"
  {
    if |s| == 2 {
      LowerAt(s, 0);
      LowerAt(s, 1);
    }
    if s == "a5" || s == "A5" {
      assert Lower(s)[0] == 'a' && Lower(s)[1] == '5';
    }
    if Lower(s) == "a5" {
      assert LowerChar(s[0]) == 'a' && LowerChar(s[1]) == '5';
      assert s[0] == 'a' || s[0] == 'A';
      assert s[1] == '5';
    }
  }

  /** `os.path.abspath(p)` with `cwd` as the current directory, without the normalisation step. */
  function AbsPath(cwd: string, p: string): (r: string)
    ensures IsAbsolute(p) ==> r == p
    ensures IsAbsolute(cwd) ==> IsAbsolute(r)
  {
    Join(cwd, p)
  }

  /**
    One path component that normalisation leaves alone: not empty, no
    separator, and neither `.` nor `..`.
  */
  predicate ProperName(s: string)
  {
    s != [] && NoSlash(s) && s != "." && s != ".."
  }

  /** The separator `Join` puts after `a`: none when `a` is empty or already ends with one. */
  function Sep(a: string): string
  {
    if a == [] || a[|a| - 1] == '/' then "" else "/"
  }

  /** A relative name is appended to `a` after `Sep(a)`. */
  lemma {:induction false} JoinSep(a: string, b: string)
    requires !IsAbsolute(b)
    ensures Join(a, b) == a + Sep(a) + b
  {
  }

  /** What follows a non-empty `t` decides the separator, whatever stands before it. */
  lemma {:induction false} SepOfSuffix(a: string, t: string)
    requires t != []
    ensures Sep(a + t) == Sep(t)
  {
    assert (a + t)[|a + t| - 1] == t[|t| - 1];
  }

  /**
    Resolving a relative name inside a directory `t` resolved from `c` is
    resolving `t/f` from `c`: `(c/t)/f` is `c/(t/f)`, whatever `t` is
    (absolute, empty, or with a trailing '/').
  */
  lemma {:induction false} JoinTwice(c: string, t: string, f: string)
    requires !IsAbsolute(f)
    ensures Join(Join(c, t), f) == Join(c, Join(t, f))
  {
    if IsAbsolute(t) {
      assert Join(t, f)[0] == '/';
    } else if t == [] {
      JoinSep(c, t);
      JoinSep(t, f);
      JoinSep(c, f);
      assert Join(c, t) == c + Sep(c);
      JoinSep(c + Sep(c), f);
      assert Sep(c + Sep(c)) == "" by {
        if Sep(c) == "/" { SepOfSuffix(c, "/"); }
      }
    } else {
      JoinSep(c, t);
      JoinSep(t, f);
      var tf := t + Sep(t) + f;
      assert tf[0] == t[0];
      JoinSep(c, tf);
      var ct := c + Sep(c) + t;
      SepOfSuffix(c + Sep(c), t);
      JoinSep(ct, f);
      assert ct + Sep(t) + f == c + Sep(c) + tf;
    }
  }

  /**
    A path `t/d/f` of proper names, resolved inside the directory `t`
    that was itself resolved from `c`, is not the same path resolved from
    `c`: `t` stands in it twice. As every component is proper, neither
    side changes under normalisation, so the two name different files.
  */
  lemma {:induction false} RelativeTwice(c: string, t: string, d: string, f: string)
    requires ProperName(t) && ProperName(d) && ProperName(f)
    ensures var x := Join(Join(t, d), f);
      AbsPath(AbsPath(c, t), x) != AbsPath(c, x)
  {
    var ct := Join(c, t);
    var x := Join(Join(t, d), f);
    JoinShape(c, t);
    assert ct[|ct| - 1] == t[|t| - 1];
    JoinShape(t, d);
    JoinShape(Join(t, d), f);
    assert x[0] == t[0];
    JoinShape(ct, x);
    JoinShape(c, x);
  }

  /**
    A working directory `t` that is absolute and is not a prefix of the
    output resolved from `cwd` is not a prefix of the output as written
    either.
  */
  lemma {:induction false} OutsideResolved(t: string, cwd: string, p: string)
    requires IsAbsolute(t) && !HasPrefix(t, AbsPath(cwd, p))
    ensures !HasPrefix(t, p)
  {
  }
}
