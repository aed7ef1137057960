/**
 * The parts of Python's `str` that the application relies on: `strip()` with
 * no argument, `split(",")` and `",".join(...)`. Strings are sequences of
 * Unicode scalar values. Python strings are sequences of code points and
 * may also hold lone surrogates (U+D800 to U+DFFF), which a Dafny `char`
 * cannot; such strings are outside this model.
 */
module PyStr {

  /** Python's `str.isspace()` for one code point: the characters `strip()`
      removes when called with no argument. */
  predicate IsSpace(c: char) {
    || ('\t' <= c <= '\r')                     // \t \n \x0b \x0c \r
    || ('\U{001C}' <= c <= '\U{001F}')         // file, group, record, unit separators
    || c == ' '
    || c == '\U{0085}' || c == '\U{00A0}' || c == '\U{1680}'
    || ('\U{2000}' <= c <= '\U{200A}')
    || c == '\U{2028}' || c == '\U{2029}' || c == '\U{202F}' || c == '\U{205F}'
    || c == '\U{3000}'
  }

  predicate AllSpace(s: string) {
    forall i :: 0 <= i < |s| ==> IsSpace(s[i])
  }

  /** Neither end of `s` is whitespace. */
  predicate IsTrimmed(s: string) {
    s == [] || (!IsSpace(s[0]) && !IsSpace(s[|s| - 1]))
  }

  /** `r` is `s` with whitespace, and only whitespace, cut from both ends. */
  ghost predicate PaddedBy(s: string, r: string) {
    exists i, j :: 0 <= i <= j <= |s| && r == s[i..j] && AllSpace(s[..i]) && AllSpace(s[j..])
  }

  /** `str.lstrip()`: drop leading whitespace. */
  function TrimStart(s: string): (r: string)
    ensures |r| <= |s| && r == s[|s| - |r|..]
    ensures AllSpace(s[..|s| - |r|])
    ensures r == [] || !IsSpace(r[0])
    decreases |s|
  {
    if s != [] && IsSpace(s[0]) then
      var r := TrimStart(s[1..]);
      assert s[1..][..|s| - 1 - |r|] == s[1..|s| - |r|];
      r
    else
      s
  }

  /** `str.rstrip()`: drop trailing whitespace. */
  function TrimEnd(s: string): (r: string)
    ensures |r| <= |s| && r == s[..|r|]
    ensures AllSpace(s[|r|..])
    ensures r == [] || !IsSpace(r[|r| - 1])
    decreases |s|
  {
    if s != [] && IsSpace(s[|s| - 1]) then
      var r := TrimEnd(s[..|s| - 1]);
      assert s[|r|..] == s[..|s| - 1][|r|..] + [s[|s| - 1]];
      r
    else
      s
  }

  /** `str.strip()`: the trimmed middle of `s`, cut out of it between two
      whitespace-only margins. */
  function Strip(s: string): (r: string)
    ensures IsTrimmed(r)
    ensures PaddedBy(s, r)
  {
    var u := TrimStart(s);
    var r := TrimEnd(u);
    var i := |s| - |u|;
    assert r == s[i..i + |r|];
    assert s[i + |r|..] == u[|r|..];
    r
  }

  /** Any character of `Strip(s)` is a character of `s`. */
  lemma StripChars(s: string, c: char)
    requires c in Strip(s)
    ensures c in s
  {
    var u := TrimStart(s);
    var r := TrimEnd(u);
    var k :| 0 <= k < |r| && r[k] == c;
    assert u[k] == c;
    assert s[|s| - |u| + k] == c;
  }

  lemma {:induction false} TrimStartSkipsSpace(a: string, u: string)
    requires AllSpace(a)
    ensures TrimStart(a + u) == TrimStart(u)
    decreases |a|
  {
    if a != [] {
      var s := a + u;
      assert s[0] == a[0] && IsSpace(s[0]);
      assert s[1..] == a[1..] + u;
      assert TrimStart(s) == TrimStart(s[1..]);
      TrimStartSkipsSpace(a[1..], u);
    } else {
      assert a + u == u;
    }
  }

  lemma {:induction false} TrimEndSkipsSpace(u: string, b: string)
    requires AllSpace(b)
    ensures TrimEnd(u + b) == TrimEnd(u)
    decreases |b|
  {
    if b != [] {
      var s := u + b;
      assert s[|s| - 1] == b[|b| - 1] && IsSpace(s[|s| - 1]);
      assert s[..|s| - 1] == u + b[..|b| - 1];
      assert TrimEnd(s) == TrimEnd(s[..|s| - 1]);
      TrimEndSkipsSpace(u, b[..|b| - 1]);
    } else {
      assert u + b == u;
    }
  }

  /** `strip()` is characterised by its result: whatever trimmed text sits
      between two whitespace-only margins is exactly what `strip()` returns. */
  lemma {:induction false} StripOfPadded(a: string, t: string, b: string)
    requires AllSpace(a) && AllSpace(b) && IsTrimmed(t)
    ensures Strip(a + t + b) == t
  {
    assert a + t + b == a + (t + b);
    TrimStartSkipsSpace(a, t + b);
    if t == [] {
      assert t + b == b;
      TrimStartSkipsSpace(b, []);
      assert b + [] == b;
      assert TrimStart(b) == [];
    } else {
      assert TrimStart(t + b) == t + b;
      TrimEndSkipsSpace(t, b);
      assert TrimEnd(t) == t;
    }
  }

  /** Stripping twice is stripping once. */
  lemma StripIdempotent(s: string)
    ensures Strip(Strip(s)) == Strip(s)
  {
    var r := Strip(s);
    StripOfPadded([], r, []);
    assert [] + r + [] == r;
  }

  /** Python's `s.split(sep)` with a one-character separator: every
      separator ends a segment, so there is always one more segment than
      there are separators and the empty string splits to `[""]`. */
  function Split(s: string, sep: char): (r: seq<string>)
    ensures |r| == Count(s, sep) + 1
    ensures forall i :: 0 <= i < |r| ==> sep !in r[i]
    decreases |s|
  {
    if s == [] then
      [[]]
    else
      var rest := Split(s[1..], sep);
      if s[0] == sep then [[]] + rest
      else [[s[0]] + rest[0]] + rest[1..]
  }

  /** Number of occurrences of `c` in `s`. */
  function Count(s: string, c: char): nat
    decreases |s|
  {
    if s == [] then 0 else (if s[0] == c then 1 else 0) + Count(s[1..], c)
  }

  /** Python's `sep.join(parts)`. */
  function Join(parts: seq<string>, sep: char): string
    decreases |parts|
  {
    if parts == [] then []
    else if |parts| == 1 then parts[0]
    else parts[0] + [sep] + Join(parts[1..], sep)
  }

  /** Joining the segments of a split with the same separator gives the
      original string back. */
  lemma {:induction false} JoinSplit(s: string, sep: char)
    ensures Join(Split(s, sep), sep) == s
    decreases |s|
  {
    if s != [] {
      var rest := Split(s[1..], sep);
      JoinSplit(s[1..], sep);
      if s[0] == sep {
        assert s == [sep] + s[1..];
      } else if |rest| == 1 {
        assert s == [s[0]] + s[1..];
      } else {
        assert Join(rest, sep) == rest[0] + [sep] + Join(rest[1..], sep);
        var r := [[s[0]] + rest[0]] + rest[1..];
        assert r[1..] == rest[1..];
        assert s == [s[0]] + s[1..];
      }
    }
  }

  /** A separator-free prefix followed by the separator splits off as one segment. */
  lemma {:induction false} SplitAfterSegment(a: string, sep: char, b: string)
    requires sep !in a
    ensures Split(a + [sep] + b, sep) == [a] + Split(b, sep)
    decreases |a|
  {
    if a == [] {
      assert a + [sep] + b == [sep] + b;
      assert ([sep] + b)[1..] == b;
    } else {
      var s := a + [sep] + b;
      assert s[1..] == a[1..] + [sep] + b;
      SplitAfterSegment(a[1..], sep, b);
      assert [a[0]] + a[1..] == a;
    }
  }

  /** A separator-free string is one segment. */
  lemma {:induction false} SplitNoSeparator(a: string, sep: char)
    requires sep !in a
    ensures Split(a, sep) == [a]
    decreases |a|
  {
    if a != [] {
      SplitNoSeparator(a[1..], sep);
      assert [a[0]] + a[1..] == a;
    }
  }

  /** Splitting a join of separator-free parts gives the parts back
      (a join of no parts is `""`, which splits to one empty segment). */
  lemma {:induction false} SplitJoin(parts: seq<string>, sep: char)
    requires parts != []
    requires forall i :: 0 <= i < |parts| ==> sep !in parts[i]
    ensures Split(Join(parts, sep), sep) == parts
    decreases |parts|
  {
    if |parts| == 1 {
      SplitNoSeparator(parts[0], sep);
    } else {
      SplitJoin(parts[1..], sep);
      SplitAfterSegment(parts[0], sep, Join(parts[1..], sep));
      assert [parts[0]] + parts[1..] == parts;
    }
  }
}
