/**
 * JavaScript's `String.prototype.trim`, which every form in the board uses to
 * reject blank names and to normalise titles, tags and list and user names.
 * A string is falsy in JavaScript exactly when it is empty, so `!s.trim()`
 * is `IsBlank(s)` below.
 */
module Text {
  import opened Wrappers

  /**
   * The code points `trim` removes: the WhiteSpace and LineTerminator
   * characters of ECMAScript (tab, line tabulation, form feed, space,
   * no-break space, the byte order mark, the Unicode space separators,
   * line feed, carriage return, line and paragraph separators).
   */
  predicate IsSpace(c: char)
  {
    || c == '\t' || c == '\n' || c == '\U{B}' || c == '\U{C}' || c == '\r'
    || c == ' ' || c == '\U{A0}' || c == '\U{1680}'
    || ('\U{2000}' <= c <= '\U{200A}')
    || c == '\U{2028}' || c == '\U{2029}' || c == '\U{202F}' || c == '\U{205F}'
    || c == '\U{3000}' || c == '\U{FEFF}'
  }

  /** Drops the leading white space of `s`. */
  function TrimStart(s: string): (r: string)
    ensures |r| <= |s| && r == s[|s| - |r|..]
    ensures forall i :: 0 <= i < |s| - |r| ==> IsSpace(s[i])
    ensures r == [] || !IsSpace(r[0])
  {
    if s != [] && IsSpace(s[0]) then TrimStart(s[1..]) else s
  }

  /** Drops the trailing white space of `s`. */
  function TrimEnd(s: string): (r: string)
    ensures |r| <= |s| && r == s[..|r|]
    ensures forall i :: |r| <= i < |s| ==> IsSpace(s[i])
    ensures r == [] || !IsSpace(r[|r| - 1])
  {
    if s != [] && IsSpace(s[|s| - 1]) then TrimEnd(s[..|s| - 1]) else s
  }

  /** `s.trim()`: no longer than `s`, and neither starting nor ending with white space. */
  function Trim(s: string): (r: string)
    ensures |r| <= |s|
    ensures r == [] || (!IsSpace(r[0]) && !IsSpace(r[|r| - 1]))
  {
    TrimEndKeepsStart(TrimStart(s));
    TrimEnd(TrimStart(s))
  }

  /** `!s.trim()`: the string is empty once trimmed. */
  predicate IsBlank(s: string)
  {
    Trim(s) == []
  }

  /**
   * A prefix `r` of the suffix `t` of `s` is the part of `s` from where `t`
   * starts, and what follows `r` in `t` follows it in `s`.
   */
  lemma MiddleSlice<T>(p: T -> bool, s: seq<T>, t: seq<T>, r: seq<T>)
    requires |t| <= |s| && t == s[|s| - |t|..]
    requires |r| <= |t| && r == t[..|r|]
    requires forall i :: |r| <= i < |t| ==> p(t[i])
    ensures forall k :: 0 <= k < |r| ==> r[k] == s[|s| - |t| + k]
    ensures forall i :: |s| - |t| + |r| <= i < |s| ==> p(s[i])
  {
    var a := |s| - |t|;
    forall k | 0 <= k < |r| ensures r[k] == s[a + k] {
      assert r[k] == t[k];
    }
    forall i | a + |r| <= i < |s| ensures p(s[i]) {
      assert s[i] == t[i - a];
    }
  }

  /**
   * `Trim(s)` is `s` with exactly its white-space prefix and suffix cut off:
   * with `a` the length of the prefix, the characters of `Trim(s)` are those
   * of `s` from `a` on, and every character before `a` or after them is
   * white space.
   */
  lemma TrimIsMiddle(s: string)
    ensures |s| - |TrimStart(s)| + |Trim(s)| <= |s|
    ensures forall k :: 0 <= k < |Trim(s)| ==> Trim(s)[k] == s[|s| - |TrimStart(s)| + k]
    ensures forall i :: 0 <= i < |s| - |TrimStart(s)| ==> IsSpace(s[i])
    ensures forall i :: |s| - |TrimStart(s)| + |Trim(s)| <= i < |s| ==> IsSpace(s[i])
  {
    var t := TrimStart(s);
    var r := TrimEnd(t);
    assert Trim(s) == r;
    MiddleSlice(IsSpace, s, t, r);
  }

  /** Cutting white space off the end keeps a first character that is not white space. */
  lemma TrimEndKeepsStart(t: string)
    requires t == [] || !IsSpace(t[0])
    ensures TrimEnd(t) == [] || !IsSpace(TrimEnd(t)[0])
  {
    var u := TrimEnd(t);
    if u != [] {
      assert u[0] == t[0];
    }
  }

  /** A string is blank exactly when every character in it is white space. */
  lemma BlankIffAllSpace(s: string)
    ensures IsBlank(s) <==> forall k :: 0 <= k < |s| ==> IsSpace(s[k])
  {
    var t := TrimStart(s);
    if forall k :: 0 <= k < |s| ==> IsSpace(s[k]) {
      AllSpaceTrimStart(s);
    } else {
      var k :| 0 <= k < |s| && !IsSpace(s[k]);
      assert k >= |s| - |t|;
      assert t != [] && !IsSpace(t[0]);
      assert TrimEnd(t) != [];
    }
  }

  lemma {:induction false} AllSpaceTrimStart(s: string)
    requires forall k :: 0 <= k < |s| ==> IsSpace(s[k])
    ensures TrimStart(s) == []
  {
    if s != [] {
      AllSpaceTrimStart(s[1..]);
    }
  }

  /** A string that does not start with white space has none to drop at the start. */
  lemma TrimStartKeeps(u: string)
    requires u == [] || !IsSpace(u[0])
    ensures TrimStart(u) == u
  {
  }

  /** A string that does not end with white space has none to drop at the end. */
  lemma TrimEndKeeps(u: string)
    requires u == [] || !IsSpace(u[|u| - 1])
    ensures TrimEnd(u) == u
  {
  }

  /** Trimming twice is trimming once: a trimmed string neither starts nor ends with white space. */
  lemma TrimIdempotent(s: string)
    ensures Trim(Trim(s)) == Trim(s)
  {
    var u := Trim(s);
    TrimStartKeeps(u);
    TrimEndKeeps(u);
  }

  /**
   * The guard of the name forms, `if (name.trim()) { ... name.trim() ... }`:
   * a name gets through exactly when it is not blank, and what gets through
   * is the trimmed name, which is not blank and already trimmed.
   */
  function NonBlankTrim(s: string): (r: Option<string>)
    ensures r.Some? <==> !IsBlank(s)
    ensures r.Some? ==> r.value == Trim(s) && !IsBlank(r.value) && Trim(r.value) == r.value
  {
    TrimIdempotent(s);
    if IsBlank(s) then None else Some(Trim(s))
  }
}
