/**
 * Python's `str.strip()` with no argument, applied to the form's station field and,
 * at load time, to the table's Station column.
 */
module Text {

  /** The characters `str.isspace()` accepts, which `str.strip()` removes. */
  predicate IsSpace(c: char)
  {
    ('\t' <= c <= '\r') || ('\U{1C}' <= c <= ' ') || c == '\U{85}' || c == '\U{A0}'
    || c == '\U{1680}' || ('\U{2000}' <= c <= '\U{200A}') || c == '\U{2028}' || c == '\U{2029}'
    || c == '\U{202F}' || c == '\U{205F}' || c == '\U{3000}'
  }

  predicate AllSpace(s: string)
  {
    forall i :: 0 <= i < |s| ==> IsSpace(s[i])
  }

  /** Neither starts nor ends with whitespace. */
  predicate Stripped(s: string)
  {
    s == [] || (!IsSpace(s[0]) && !IsSpace(s[|s| - 1]))
  }

  /** Drops the leading whitespace. */
  function TrimStart(s: string): string
  {
    if |s| > 0 && IsSpace(s[0]) then TrimStart(s[1..]) else s
  }

  /** Drops the trailing whitespace. */
  function TrimEnd(s: string): string
  {
    if |s| > 0 && IsSpace(s[|s| - 1]) then TrimEnd(s[..|s| - 1]) else s
  }

  /** TrimStart keeps a suffix, drops only whitespace, and stops at the first other character. */
  lemma {:induction false} TrimStartSpec(s: string)
    ensures var r := TrimStart(s);
      && |r| <= |s| && r == s[|s| - |r|..]
      && AllSpace(s[..|s| - |r|])
      && (r == [] || !IsSpace(r[0]))
  {
    if |s| > 0 && IsSpace(s[0]) {
      TrimStartSpec(s[1..]);
      var r := TrimStart(s);
      assert s[1..][|s| - 1 - |r|..] == s[|s| - |r|..];
      var dropped := s[..|s| - |r|];
      forall i | 0 <= i < |dropped| ensures IsSpace(dropped[i]) {
        if i > 0 {
          assert dropped[i] == s[1..][..|s| - 1 - |r|][i - 1];
        }
      }
    }
  }

  /** TrimEnd keeps a prefix, drops only whitespace, and stops at the last other character. */
  lemma {:induction false} TrimEndSpec(s: string)
    ensures var r := TrimEnd(s);
      && |r| <= |s| && r == s[..|r|]
      && AllSpace(s[|r|..])
      && (r == [] || !IsSpace(r[|r| - 1]))
  {
    if |s| > 0 && IsSpace(s[|s| - 1]) {
      var p := s[..|s| - 1];
      TrimEndSpec(p);
      var r := TrimEnd(s);
      assert p[..|r|] == s[..|r|];
      forall i | |r| <= i < |s| ensures IsSpace(s[i]) {
        if i < |s| - 1 {
          assert s[i] == p[|r|..][i - |r|];
        }
      }
    }
  }

  /** `s.strip()`: no whitespace left at either end, and never longer than s. */
  function Trim(s: string): (r: string)
    ensures Stripped(r) && |r| <= |s|
  {
    TrimStartSpec(s);
    TrimEndSpec(TrimStart(s));
    var t := TrimStart(s);
    var r := TrimEnd(t);
    assert r != [] ==> r[0] == t[0];
    r
  }

  /** The stripped string is the middle of s: whitespace only around it, none at its ends. */
  lemma TrimSpec(s: string)
    ensures Stripped(Trim(s))
    ensures exists i, j :: 0 <= i <= j <= |s| && Trim(s) == s[i..j] && AllSpace(s[..i]) && AllSpace(s[j..])
  {
    var t := TrimStart(s);
    var r := TrimEnd(t);
    TrimStartSpec(s);
    TrimEndSpec(t);
    var i := |s| - |t|;
    var j := i + |r|;
    assert t == s[i..];
    assert r == t[..|r|];
    assert r == s[i..j];
    assert AllSpace(t[|r|..]);
    assert s[j..] == t[|r|..];
    assert AllSpace(s[..i]);
    if r != [] {
      assert r[0] == t[0];
    }
    assert Stripped(r);
  }

  /** Stripping a string that has no whitespace at either end leaves it unchanged. */
  lemma TrimStripped(s: string)
    requires Stripped(s)
    ensures Trim(s) == s
  {
  }

  /** Stripping twice is stripping once. */
  lemma TrimIdempotent(s: string)
    ensures Trim(Trim(s)) == Trim(s)
  {
    TrimSpec(s);
    TrimStripped(Trim(s));
  }

  /** Surrounding a name with whitespace does not change what it strips to. */
  lemma {:induction false} TrimPadding(pre: string, s: string, post: string)
    requires AllSpace(pre) && AllSpace(post)
    ensures Trim(pre + s + post) == Trim(s)
  {
    TrimStartPadding(pre, s + post);
    assert pre + s + post == pre + (s + post);
    TrimEndPadding(TrimStart(s), post);
    TrimStartAppend(s, post);
  }

  lemma {:induction false} TrimStartPadding(pre: string, s: string)
    requires AllSpace(pre)
    ensures TrimStart(pre + s) == TrimStart(s)
    decreases |pre|
  {
    if pre == [] {
      assert pre + s == s;
    } else {
      assert (pre + s)[0] == pre[0] && IsSpace(pre[0]);
      assert (pre + s)[1..] == pre[1..] + s;
      AllSpaceSlice(pre, 1, |pre|);
      assert pre[1..|pre|] == pre[1..];
      TrimStartPadding(pre[1..], s);
    }
  }

  lemma {:induction false} TrimEndPadding(s: string, post: string)
    requires AllSpace(post)
    ensures TrimEnd(s + post) == TrimEnd(s)
    decreases |post|
  {
    if post == [] {
      assert s + post == s;
    } else {
      var n := |s + post|;
      assert (s + post)[n - 1] == post[|post| - 1] && IsSpace(post[|post| - 1]);
      assert (s + post)[..n - 1] == s + post[..|post| - 1];
      TrimEndPadding(s, post[..|post| - 1]);
    }
  }

  /** Whitespace after the name does not affect how much leading whitespace is dropped. */
  lemma {:induction false} TrimStartAppend(s: string, post: string)
    requires AllSpace(post)
    ensures TrimEnd(TrimStart(s + post)) == TrimEnd(TrimStart(s) + post)
    decreases |s|
  {
    if s == [] {
      assert s + post == post;
      TrimAllSpace(post);
    } else if IsSpace(s[0]) {
      assert (s + post)[0] == s[0];
      assert (s + post)[1..] == s[1..] + post;
      TrimStartAppend(s[1..], post);
    } else {
      assert (s + post)[0] == s[0];
    }
  }

  /** A string of whitespace strips to nothing from either end. */
  lemma {:induction false} TrimAllSpace(s: string)
    requires AllSpace(s)
    ensures TrimStart(s) == [] && TrimEnd(s) == []
  {
    if s != [] {
      assert IsSpace(s[0]) && IsSpace(s[|s| - 1]);
      AllSpaceSlice(s, 1, |s|);
      AllSpaceSlice(s, 0, |s| - 1);
      assert s[1..|s|] == s[1..] && s[0..|s| - 1] == s[..|s| - 1];
      TrimAllSpace(s[1..]);
      TrimAllSpace(s[..|s| - 1]);
    }
  }

  /** Any slice of whitespace is whitespace. */
  lemma AllSpaceSlice(s: string, i: int, j: int)
    requires AllSpace(s) && 0 <= i <= j <= |s|
    ensures AllSpace(s[i..j])
  {
    var t := s[i..j];
    forall k | 0 <= k < |t| ensures IsSpace(t[k]) {
      assert t[k] == s[i + k];
    }
  }
}
