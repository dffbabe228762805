/**
 Escaping of reference tokens (sections 3 and 4 of RFC 6901): the find/replace loops
 of the library, the character-by-character reading that they refine, and the fact
 that escaping and unescaping undo each other.

 A string is a sequence of characters; the library's byte strings are the case in
 which every character is below 256.
 */
module StringEscape {

  /** `f` occurs in `s` at position `p`. */
  predicate OccursAt(s: string, f: string, p: int) {
    0 <= p && p + |f| <= |s| && s[p..p + |f|] == f
  }

  /** The position of the first occurrence of `f` in `s` at or after `from`; -1 stands for `npos`. */
  function Find(s: string, f: string, from: nat): (pos: int)
    requires f != ""
    ensures pos == -1 || (from <= pos && OccursAt(s, f, pos))
    ensures forall p :: from <= p && (pos == -1 || p < pos) ==> !OccursAt(s, f, p)
    decreases |s| - from
  {
    if |s| < from + |f| then -1
    else if s[from..from + |f|] == f then from
    else Find(s, f, from + 1)
  }

  /** Left-to-right replacement of every (non-overlapping) occurrence of `f` by `t`. */
  function ReplaceAll(s: string, f: string, t: string): string
    requires f != ""
  {
    if |s| < |f| then s
    else if s[..|f|] == f then t + ReplaceAll(s[|f|..], f, t)
    else [s[0]] + ReplaceAll(s[1..], f, t)
  }

  lemma OccursWithin(s: string, f: string, p: int)
    requires OccursAt(s, f, p)
    ensures 0 <= p && p + |f| <= |s|
  {
  }

  lemma OccursInSuffix(s: string, f: string, n: nat, p: nat)
    requires n <= |s|
    ensures OccursAt(s[n..], f, p) == OccursAt(s, f, n + p)
  {
    if n + p + |f| <= |s| {
      assert s[n..][p..p + |f|] == s[n + p..n + p + |f|];
    }
  }

  lemma TooShort(s: string, f: string, t: string)
    requires f != "" && |s| < |f|
    ensures ReplaceAll(s, f, t) == s
  {
  }

  lemma SkipHead(s: string, f: string, t: string)
    requires f != "" && |s| >= |f| && !OccursAt(s, f, 0)
    ensures ReplaceAll(s, f, t) == [s[0]] + ReplaceAll(s[1..], f, t)
  {
  }

  lemma FirstApart(s: string, n: nat)
    requires 0 < n <= |s|
    ensures s[1..][n - 1..] == s[n..] && s[..n] == [s[0]] + s[1..][..n - 1]
  {
  }

  /** Text without an occurrence of `f` is copied. */
  lemma {:induction false} ReplaceAllSkips(s: string, f: string, t: string, n: nat)
    requires f != "" && n <= |s|
    requires forall p :: 0 <= p < n ==> !OccursAt(s, f, p)
    ensures ReplaceAll(s, f, t) == s[..n] + ReplaceAll(s[n..], f, t)
  {
    hide ReplaceAll;
    if n == 0 {
      assert s[0..] == s;
    } else if |s| < |f| {
      TooShort(s, f, t);
      TooShort(s[n..], f, t);
      assert s == s[..n] + s[n..];
    } else {
      SkipHead(s, f, t);
      var rest := s[1..];
      forall p | 0 <= p < n - 1 ensures !OccursAt(rest, f, p) {
        OccursInSuffix(s, f, 1, p);
      }
      ReplaceAllSkips(rest, f, t, n - 1);
      FirstApart(s, n);
    }
  }

  /** `replace_substring`: the string is rewritten while it is searched. */
  method ReplaceSubstring(s0: string, f: string, t: string) returns (s: string)
    requires f != ""
    ensures s == ReplaceAll(s0, f, t)
  {
    hide ReplaceAll, OccursAt;
    s := s0;
    ghost var start := 0;
    var pos := Find(s, f, 0);
    assert s[..0] + ReplaceAll(s[0..], f, t) == ReplaceAll(s0, f, t) by { assert s[0..] == s0; }
    while pos != -1
      invariant 0 <= start <= |s|
      invariant pos == Find(s, f, start)
      invariant s[..start] + ReplaceAll(s[start..], f, t) == ReplaceAll(s0, f, t)
      decreases |s| - start
    {
      OccursWithin(s, f, pos);
      ReplaceStep(s, f, t, start, pos);
      s := s[..pos] + t + s[pos + |f|..];
      start := pos + |t|;
      pos := Find(s, f, pos + |t|);
    }
    NothingLeft(s, f, t, start);
  }

  /** Where `f` does not occur any more nothing is replaced. */
  lemma NothingLeft(s: string, f: string, t: string, start: nat)
    requires f != "" && start <= |s| && forall p :: start <= p ==> !OccursAt(s, f, p)
    ensures s[..start] + ReplaceAll(s[start..], f, t) == s
  {
    hide ReplaceAll;
    var rest := s[start..];
    forall p | 0 <= p < |rest| ensures !OccursAt(rest, f, p) {
      OccursInSuffix(s, f, start, p);
    }
    ReplaceAllSkips(rest, f, t, |rest|);
    TooShort("", f, t);
    assert rest[..|rest|] == rest && rest[|rest|..] == "";
    assert s == s[..start] + rest;
  }

  /** Replacement reaches the first occurrence of `f`, replaces it and goes on behind it. */
  lemma {:induction false} ReplaceAllFirst(s: string, f: string, t: string, n: nat)
    requires f != "" && OccursAt(s, f, n)
    requires forall p :: 0 <= p < n ==> !OccursAt(s, f, p)
    ensures ReplaceAll(s, f, t) == s[..n] + (t + ReplaceAll(s[n + |f|..], f, t))
  {
    ReplaceAllSkips(s, f, t, n);
    var here := s[n..];
    assert here[..|f|] == s[n..n + |f|] && here[|f|..] == s[n + |f|..];
  }

  /** One turn of the loop keeps the string that the finished loop will hold. */
  lemma {:induction false} ReplaceStep(s: string, f: string, t: string, start: nat, pos: nat)
    requires f != "" && start <= pos && OccursAt(s, f, pos)
    requires forall p :: start <= p < pos ==> !OccursAt(s, f, p)
    ensures var s' := s[..pos] + t + s[pos + |f|..];
            s'[..pos + |t|] + ReplaceAll(s'[pos + |t|..], f, t) == s[..start] + ReplaceAll(s[start..], f, t)
  {
    hide ReplaceAll;
    var rest, n := s[start..], pos - start;
    OccursInSuffix(s, f, start, n);
    forall p | 0 <= p < n ensures !OccursAt(rest, f, p) {
      OccursInSuffix(s, f, start, p);
    }
    ReplaceAllFirst(rest, f, t, n);
    SpliceParts(s, t, start, pos, pos + |f|);
    Regroup(s[..start], rest[..n], t, ReplaceAll(s[pos + |f|..], f, t));
  }

  lemma Regroup(a: string, b: string, c: string, d: string)
    ensures a + b + c + d == a + (b + (c + d))
  {
  }

  lemma SpliceParts(s: string, t: string, start: nat, pos: nat, end: nat)
    requires start <= pos <= end <= |s|
    ensures var s' := s[..pos] + t + s[end..];
            && s'[pos + |t|..] == s[end..] == s[start..][end - start..]
            && s'[..pos + |t|] == s[..start] + s[start..][..pos - start] + t
  {
    assert s[..pos] == s[..start] + s[start..][..pos - start];
  }

  /** `escape`: first "~" becomes "~0", then "/" becomes "~1". */
  method Escape(s: string) returns (r: string)
    ensures r == Escaped(s)
  {
    r := ReplaceSubstring(s, "~", "~0");
    r := ReplaceSubstring(r, "/", "~1");
    EscapeRefines(s);
  }

  /** `unescape`: first "~1" becomes "/", then "~0" becomes "~". */
  method Unescape(s: string) returns (r: string)
    ensures r == Unescaped(s)
    ensures WellEscaped(s) ==> r == Decoded(s)
  {
    r := ReplaceSubstring(s, "~1", "/");
    r := ReplaceSubstring(r, "~0", "~");
    if WellEscaped(s) {
      UnescapeRefines(s);
    }
  }

  /** The two passes of `unescape` as a function. */
  function Unescaped(s: string): string {
    ReplaceAll(ReplaceAll(s, "~1", "/"), "~0", "~")
  }

  /** Character-by-character escaping. */
  function Escaped(s: string): (r: string)
    ensures '/' !in r
    ensures WellEscaped(r)
  {
    if s == "" then ""
    else if s[0] == '~' then "~0" + Escaped(s[1..])
    else if s[0] == '/' then "~1" + Escaped(s[1..])
    else [s[0]] + Escaped(s[1..])
  }

  /** Every "~" is followed by "0" or "1". */
  predicate WellEscaped(s: string) {
    forall p :: 0 <= p < |s| && s[p] == '~' ==> p + 1 < |s| && (s[p + 1] == '0' || s[p + 1] == '1')
  }

  /** Character-by-character unescaping; a "~" that starts no escape is kept. */
  function Decoded(s: string): string {
    if s == "" then ""
    else if s[0] == '~' && |s| > 1 && s[1] == '0' then "~" + Decoded(s[2..])
    else if s[0] == '~' && |s| > 1 && s[1] == '1' then "/" + Decoded(s[2..])
    else [s[0]] + Decoded(s[1..])
  }

  lemma WellEscapedTail(s: string, n: nat)
    requires WellEscaped(s) && n <= |s|
    ensures WellEscaped(s[n..])
  {
    var r := s[n..];
    forall p | 0 <= p < |r| && r[p] == '~' ensures p + 1 < |r| && (r[p + 1] == '0' || r[p + 1] == '1') {
      assert s[n + p] == '~';
    }
  }

  /** The two find/replace passes of `escape` refine character-by-character escaping. */
  lemma {:induction false} EscapeRefines(s: string)
    ensures ReplaceAll(ReplaceAll(s, "~", "~0"), "/", "~1") == Escaped(s)
  {
    if s != "" {
      EscapeRefines(s[1..]);
      var rest := ReplaceAll(s[1..], "~", "~0");
      var all := ReplaceAll(s, "~", "~0");
      assert s[..1] == [s[0]];
      if s[0] == '~' {
        assert all == "~0" + rest;
        assert all[..1] == "~" && all[1..] == "0" + rest;
        var tail := all[1..];
        assert tail[..1] == "0" && tail[1..] == rest;
        assert ReplaceAll(tail, "/", "~1") == "0" + ReplaceAll(rest, "/", "~1");
      } else {
        assert all == [s[0]] + rest;
        assert all[..1] == [s[0]] && all[1..] == rest;
      }
    }
  }

  /** On properly escaped text the two passes of `unescape` refine one left-to-right decoding. */
  lemma {:induction false} UnescapeRefines(s: string)
    requires WellEscaped(s)
    ensures Unescaped(s) == Decoded(s)
  {
    hide ReplaceAll, WellEscaped, Decoded;
    if s == "" {
      NothingToReplace();
    } else if s[0] != '~' {
      WellEscapedTail(s, 1);
      UnescapeRefines(s[1..]);
      UnescapedPlain(s);
    } else {
      TildeStartsEscape(s);
      WellEscapedTail(s, 2);
      UnescapeRefines(s[2..]);
      if s[1] == '1' { UnescapedSlash(s); } else { UnescapedTilde(s); }
    }
  }

  lemma NothingToReplace()
    ensures Unescaped("") == "" && Decoded("") == ""
  {
  }

  lemma TildeStartsEscape(s: string)
    requires WellEscaped(s) && s != "" && s[0] == '~'
    ensures |s| > 1 && (s[1] == '0' || s[1] == '1')
  {
  }

  /** An occurrence at the head is replaced. */
  lemma ReplaceHead(s: string, f: string, t: string)
    requires |f| == 2 && |s| >= 2 && s[0] == f[0] && s[1] == f[1]
    ensures ReplaceAll(s, f, t) == t + ReplaceAll(s[2..], f, t)
  {
    assert s[..2] == f;
  }

  lemma UnescapedPlain(s: string)
    requires s != "" && s[0] != '~'
    ensures Unescaped(s) == [s[0]] + Unescaped(s[1..]) && Decoded(s) == [s[0]] + Decoded(s[1..])
  {
    hide ReplaceAll;
    var rest := ReplaceAll(s[1..], "~1", "/");
    SkipChar(s, "~1", "/");
    var once := [s[0]] + rest;
    SkipChar(once, "~0", "~");
    assert once[1..] == rest;
  }

  lemma UnescapedSlash(s: string)
    requires |s| > 1 && s[0] == '~' && s[1] == '1'
    ensures Unescaped(s) == "/" + Unescaped(s[2..]) && Decoded(s) == "/" + Decoded(s[2..])
  {
    hide ReplaceAll;
    var rest := ReplaceAll(s[2..], "~1", "/");
    ReplaceHead(s, "~1", "/");
    var once := "/" + rest;
    SkipChar(once, "~0", "~");
    assert once[1..] == rest;
  }

  lemma UnescapedTilde(s: string)
    requires |s| > 1 && s[0] == '~' && s[1] == '0'
    ensures Unescaped(s) == "~" + Unescaped(s[2..]) && Decoded(s) == "~" + Decoded(s[2..])
  {
    hide ReplaceAll;
    var rest := ReplaceAll(s[2..], "~1", "/");
    SkipChar(s, "~1", "/");
    SkipChar(s[1..], "~1", "/");
    assert s[1..][1..] == s[2..];
    var once := "~0" + rest;
    assert once == ['~'] + (['0'] + rest);
    ReplaceHead(once, "~0", "~");
    assert once[2..] == rest;
  }

  lemma SkipChar(s: string, f: string, t: string)
    requires s != "" && |f| == 2
    requires s[0] != f[0] || |s| == 1 || s[1] != f[1]
    ensures ReplaceAll(s, f, t) == [s[0]] + ReplaceAll(s[1..], f, t)
  {
    if |s| >= 2 {
      assert s[..2] == [s[0], s[1]];
      assert f == [f[0], f[1]];
    } else {
      assert s == [s[0]] + s[1..];
    }
  }

  /** Unescaping an escaped token gives the token back, whatever it contains. */
  lemma {:induction false} UnescapeEscape(s: string)
    ensures Unescaped(Escaped(s)) == s
  {
    UnescapeRefines(Escaped(s));
    DecodeEscape(s);
  }

  lemma {:induction false} DecodeEscape(s: string)
    ensures Decoded(Escaped(s)) == s
  {
    if s != "" {
      DecodeEscape(s[1..]);
      var e := Escaped(s);
      if s[0] == '~' || s[0] == '/' {
        assert e[2..] == Escaped(s[1..]);
      } else {
        assert e[1..] == Escaped(s[1..]);
      }
    }
  }

  /** Escaping an unescaped token gives the token back, when it was properly escaped. */
  lemma {:induction false} EscapeUnescape(s: string)
    requires WellEscaped(s) && '/' !in s
    ensures Escaped(Unescaped(s)) == s
  {
    UnescapeRefines(s);
    EscapeDecode(s);
  }

  lemma {:induction false} EscapeDecode(s: string)
    requires WellEscaped(s) && '/' !in s
    ensures Escaped(Decoded(s)) == s
  {
    if s != "" {
      var d := Decoded(s);
      if s[0] == '~' {
        WellEscapedTail(s, 2);
        EscapeDecode(s[2..]);
        assert d[1..] == Decoded(s[2..]);
        assert s == s[..2] + s[2..];
      } else {
        WellEscapedTail(s, 1);
        EscapeDecode(s[1..]);
        assert d[1..] == Decoded(s[1..]);
        assert s[0] != '/';
        assert s == [s[0]] + s[1..];
      }
    }
  }

  /** Escaping never confuses two tokens. */
  lemma EscapedInjective(a: string, b: string)
    requires Escaped(a) == Escaped(b)
    ensures a == b
  {
    DecodeEscape(a);
    DecodeEscape(b);
  }
}
