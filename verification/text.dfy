/**
 * The few Python string operations the nodes rely on: `str.strip()`,
 * `str.startswith`, `str.replace(marker, "")`, `"\n".join` and its inverse
 * `str.split("\n")`.
 */
module Text {

  /** `c.isspace()` for Python 3: the characters `str.strip()` removes. */
  predicate IsSpace(c: char) {
    || ('\t' <= c <= '\r')
    || ('\U{1C}' <= c <= '\U{1F}')
    || c == ' ' || c == '\U{85}' || c == '\U{A0}' || c == '\U{1680}'
    || ('\U{2000}' <= c <= '\U{200A}')
    || c == '\U{2028}' || c == '\U{2029}' || c == '\U{202F}' || c == '\U{205F}'
    || c == '\U{3000}'
  }

  /** True when `s` neither begins nor ends with whitespace. */
  predicate Trimmed(s: string) {
    |s| == 0 || (!IsSpace(s[0]) && !IsSpace(s[|s| - 1]))
  }

  /** The number of whitespace characters `s.lstrip()` removes. */
  function LeadingSpace(s: string): (n: nat)
    ensures n <= |s|
    ensures forall i :: 0 <= i < n ==> IsSpace(s[i])
    ensures n == |s| || !IsSpace(s[n])
    decreases |s|
  {
    if |s| > 0 && IsSpace(s[0]) then 1 + LeadingSpace(s[1..]) else 0
  }

  /** The number of whitespace characters `s.rstrip()` removes. */
  function TrailingSpace(s: string): (n: nat)
    ensures n <= |s|
    ensures forall i :: |s| - n <= i < |s| ==> IsSpace(s[i])
    ensures n == |s| || !IsSpace(s[|s| - n - 1])
    decreases |s|
  {
    if |s| > 0 && IsSpace(s[|s| - 1]) then 1 + TrailingSpace(s[..|s| - 1]) else 0
  }

  /** `s.strip()`: the stretch of `s` between its leading and its trailing
      whitespace; everything cut off is whitespace and the result is trimmed. */
  function Strip(s: string): (r: string)
    ensures Trimmed(r)
    ensures LeadingSpace(s) + |r| <= |s|
    ensures r == s[LeadingSpace(s)..LeadingSpace(s) + |r|]
    ensures forall i :: 0 <= i < LeadingSpace(s) ==> IsSpace(s[i])
    ensures forall i :: LeadingSpace(s) + |r| <= i < |s| ==> IsSpace(s[i])
  {
    var a := LeadingSpace(s);
    var n := TrailingSpace(s[a..]);
    StripSlice(s, a, n);
    s[a..|s| - n]
  }

  /** Cutting `a` leading and `n` trailing whitespace characters, where the
      character after the first cut and the one before the second are not
      whitespace, leaves a trimmed stretch with only whitespace after it. */
  lemma StripSlice(s: string, a: nat, n: nat)
    requires a <= |s| && n <= |s| - a
    requires a == |s| || !IsSpace(s[a])
    requires forall i :: |s[a..]| - n <= i < |s[a..]| ==> IsSpace(s[a..][i])
    requires n == |s[a..]| || !IsSpace(s[a..][|s[a..]| - n - 1])
    ensures Trimmed(s[a..|s| - n])
    ensures forall i :: |s| - n <= i < |s| ==> IsSpace(s[i])
  {
    var t := s[a..];
    forall i | |s| - n <= i < |s| ensures IsSpace(s[i]) {
      assert s[i] == t[i - a];
    }
    var r := s[a..|s| - n];
    if |r| > 0 {
      assert r[0] == s[a];
      assert r[|r| - 1] == t[|t| - n - 1];
    }
  }

  /** Stripping a string that has no surrounding whitespace returns it unchanged. */
  lemma StripTrimmed(s: string)
    requires Trimmed(s)
    ensures Strip(s) == s
  {
    assert LeadingSpace(s) == 0;
    assert s[0..] == s;
  }

  /** `str.strip()` is idempotent. */
  lemma StripIdempotent(s: string)
    ensures Strip(Strip(s)) == Strip(s)
  {
    StripTrimmed(Strip(s));
  }

  /** `s.startswith(p)`. */
  predicate StartsWith(s: string, p: string) {
    |p| <= |s| && s[..|p|] == p
  }

  /** `p in s`: `p` occurs somewhere in `s`. */
  predicate Occurs(s: string, p: string)
    decreases |s|
  {
    StartsWith(s, p) || (|s| > 0 && Occurs(s[1..], p))
  }

  /** `s.replace(p, "")`: scanning left to right, every non-overlapping
      occurrence of `p` is deleted. */
  function RemoveAll(s: string, p: string): (r: string)
    requires |p| > 0
    ensures |r| <= |s|
    ensures !Occurs(s, p) ==> r == s
    ensures Occurs(s, p) ==> |r| <= |s| - |p|
    decreases |s|
  {
    if |s| == 0 then []
    else if StartsWith(s, p) then RemoveAll(s[|p|..], p)
    else [s[0]] + RemoveAll(s[1..], p)
  }

  /** The last character of `p` occurs nowhere else in `p`, so an occurrence
      of `p` can neither overlap another one nor begin inside a stretch that
      holds no occurrence and end inside the `p` that follows it. */
  predicate EndsUniquely(p: string) {
    |p| > 0 && forall i :: 0 <= i < |p| - 1 ==> p[i] != p[|p| - 1]
  }

  /** `sep.join(parts)` for a separator of any length. */
  function JoinWith(parts: seq<string>, sep: string): string
    decreases |parts|
  {
    if |parts| == 0 then ""
    else if |parts| == 1 then parts[0]
    else parts[0] + sep + JoinWith(parts[1..], sep)
  }

  /** `"".join(parts)`. */
  function Concat(parts: seq<string>): string
    decreases |parts|
  {
    if |parts| == 0 then "" else parts[0] + Concat(parts[1..])
  }

  /** No occurrence of `p` starts inside a non-empty prefix `a` free of `p`
      when `p` itself follows `a`. */
  lemma NoStraddle(a: string, p: string, b: string)
    requires EndsUniquely(p) && |a| > 0 && !Occurs(a, p)
    ensures !StartsWith(a + p + b, p)
  {
    var s := a + p + b;
    if |a| >= |p| {
      assert s[..|p|] == a[..|p|];
    } else {
      assert s[|p| - 1] == p[|p| - 1 - |a|];
    }
  }

  /** Removing `p` from `a + p + b`, with `a` free of `p`, keeps `a`, deletes
      that occurrence and carries on in `b`. */
  lemma RemoveAfterPlain(a: string, p: string, b: string)
    requires EndsUniquely(p) && !Occurs(a, p)
    ensures RemoveAll(a + p + b, p) == a + RemoveAll(b, p)
  {
    var rest := p + b;
    forall i | 0 <= i < |a| ensures !StartsWith(a[i..] + rest, p) {
      OccursSuffix(a, p, i);
      NoStraddle(a[i..], p, b);
      assert a[i..] + p + b == a[i..] + rest;
    }
    KeepPlain(a, rest, p);
    assert a + p + b == a + rest;
    RemoveAtMarker(p, b);
  }

  /** A prefix none of whose positions begins an occurrence is kept whole. */
  lemma {:induction false} KeepPlain(a: string, rest: string, p: string)
    requires |p| > 0
    requires forall i :: 0 <= i < |a| ==> !StartsWith(a[i..] + rest, p)
    ensures RemoveAll(a + rest, p) == a + RemoveAll(rest, p)
    decreases |a|
  {
    if |a| == 0 {
      assert a + rest == rest;
    } else {
      KeepStep(a, rest, p);
      PlainTail(a, rest, p);
      KeepPlain(a[1..], rest, p);
      ConsAppend(a, RemoveAll(rest, p));
    }
  }

  /** Putting back the first character of `a` in front of `a[1..] + y`. */
  lemma ConsAppend(a: string, y: string)
    requires |a| > 0
    ensures [a[0]] + (a[1..] + y) == a + y
  {
    assert [a[0]] + a[1..] == a;
  }

  /** One step of `KeepPlain`: the first character of `a` is kept. */
  lemma KeepStep(a: string, rest: string, p: string)
    requires |p| > 0 && |a| > 0
    requires forall i :: 0 <= i < |a| ==> !StartsWith(a[i..] + rest, p)
    ensures RemoveAll(a + rest, p) == [a[0]] + RemoveAll(a[1..] + rest, p)
  {
    assert a[0..] == a;
    RemoveKeepsFirst(a + rest, p);
    assert (a + rest)[1..] == a[1..] + rest;
  }

  /** The hypothesis of `KeepPlain` passes to the tail of `a`. */
  lemma PlainTail(a: string, rest: string, p: string)
    requires |a| > 0
    requires forall i :: 0 <= i < |a| ==> !StartsWith(a[i..] + rest, p)
    ensures forall i :: 0 <= i < |a[1..]| ==> !StartsWith(a[1..][i..] + rest, p)
  {
    forall i | 0 <= i < |a| - 1 ensures !StartsWith(a[1..][i..] + rest, p) {
      assert a[1..][i..] == a[i + 1..];
    }
  }

  /** Every suffix of a string free of `p` is free of `p`. */
  lemma {:induction false} OccursSuffix(a: string, p: string, i: nat)
    requires i <= |a| && !Occurs(a, p)
    ensures !Occurs(a[i..], p)
    decreases i
  {
    if i > 0 {
      OccursSuffix(a, p, i - 1);
      OccursTail(a[i - 1..], p);
      assert a[i - 1..][1..] == a[i..];
    }
  }

  /** An occurrence at the front is deleted. */
  lemma RemoveAtMarker(p: string, b: string)
    requires |p| > 0
    ensures RemoveAll(p + b, p) == RemoveAll(b, p)
  {
    var s := p + b;
    assert s[..|p|] == p;
    assert s[|p|..] == b;
  }

  /** A first character that does not begin an occurrence is kept. */
  lemma RemoveKeepsFirst(s: string, p: string)
    requires |p| > 0 && |s| > 0 && !StartsWith(s, p)
    ensures RemoveAll(s, p) == [s[0]] + RemoveAll(s[1..], p)
  {
  }

  /** A string free of `p` has a tail free of `p`. */
  lemma OccursTail(a: string, p: string)
    requires |a| > 0 && !Occurs(a, p)
    ensures !Occurs(a[1..], p)
  {
  }

  /** `s.replace(p, "")` on pieces free of `p` joined by `p`: exactly the
      pieces, in order, with every separator deleted and nothing else. */
  lemma {:induction false} RemoveAllJoined(parts: seq<string>, p: string)
    requires EndsUniquely(p) && |parts| >= 1
    requires forall i :: 0 <= i < |parts| ==> !Occurs(parts[i], p)
    ensures RemoveAll(JoinWith(parts, p), p) == Concat(parts)
    decreases |parts|
  {
    if |parts| == 1 {
      assert Concat(parts) == parts[0] + Concat([]);
      assert parts[0] + "" == parts[0];
    } else {
      RemoveAllJoined(parts[1..], p);
      RemoveAfterPlain(parts[0], p, JoinWith(parts[1..], p));
    }
  }

  /** `sep.join(parts)` for a one-character separator. */
  function Join(parts: seq<string>, sep: char): string
    decreases |parts|
  {
    if |parts| == 0 then ""
    else if |parts| == 1 then parts[0]
    else parts[0] + [sep] + Join(parts[1..], sep)
  }

  /** `s.split(sep)` for a one-character separator: never empty, and no piece
      contains the separator. */
  function Split(s: string, sep: char): (parts: seq<string>)
    ensures |parts| >= 1
    ensures forall i :: 0 <= i < |parts| ==> sep !in parts[i]
    decreases |s|
  {
    if |s| == 0 then [""]
    else
      var rest := Split(s[1..], sep);
      if s[0] == sep then [""] + rest
      else [[s[0]] + rest[0]] + rest[1..]
  }

  /** Joining the pieces of a split rebuilds the string. */
  lemma {:induction false} JoinSplit(s: string, sep: char)
    ensures Join(Split(s, sep), sep) == s
    decreases |s|
  {
    if |s| > 0 {
      var rest := Split(s[1..], sep);
      JoinSplit(s[1..], sep);
      if s[0] == sep {
        assert Split(s, sep) == [""] + rest;
        assert ([""] + rest)[1..] == rest;
        assert s == [sep] + s[1..];
      } else {
        var parts := [[s[0]] + rest[0]] + rest[1..];
        assert Split(s, sep) == parts;
        if |rest| == 1 {
          assert Join(parts, sep) == [s[0]] + rest[0];
        } else {
          assert parts[1..] == rest[1..];
          assert Join(rest, sep) == rest[0] + [sep] + Join(rest[1..], sep);
        }
        assert s == [s[0]] + s[1..];
      }
    }
  }

  /** Splitting a separator-free string yields just that string. */
  lemma {:induction false} SplitPlain(t: string, sep: char)
    requires sep !in t
    ensures Split(t, sep) == [t]
    decreases |t|
  {
    if |t| > 0 {
      SplitPlain(t[1..], sep);
      assert [t[0]] + t[1..] == t;
    }
  }

  /** Splitting `t + sep + u` for a separator-free `t` peels `t` off. */
  lemma {:induction false} SplitAfterPiece(t: string, u: string, sep: char)
    requires sep !in t
    ensures Split(t + [sep] + u, sep) == [t] + Split(u, sep)
    decreases |t|
  {
    if |t| == 0 {
      assert t + [sep] + u == [sep] + u;
      assert ([sep] + u)[1..] == u;
    } else {
      SplitAfterPiece(t[1..], u, sep);
      assert (t + [sep] + u)[1..] == t[1..] + [sep] + u;
      assert [t[0]] + t[1..] == t;
    }
  }

  /** The one-character join agrees with the general join given that
      character as its separator: both are `sep.join`. */
  lemma {:induction false} JoinIsJoinWith(parts: seq<string>, sep: char)
    ensures Join(parts, sep) == JoinWith(parts, [sep])
    decreases |parts|
  {
    if |parts| > 1 {
      JoinIsJoinWith(parts[1..], sep);
    }
  }

  /** Splitting a join of separator-free pieces recovers the pieces. */
  lemma {:induction false} SplitJoin(parts: seq<string>, sep: char)
    requires |parts| >= 1
    requires forall i :: 0 <= i < |parts| ==> sep !in parts[i]
    ensures Split(Join(parts, sep), sep) == parts
    decreases |parts|
  {
    if |parts| == 1 {
      SplitPlain(parts[0], sep);
    } else {
      SplitJoin(parts[1..], sep);
      SplitAfterPiece(parts[0], Join(parts[1..], sep), sep);
      assert [parts[0]] + parts[1..] == parts;
    }
  }
}
