/** The Python string operations the service relies on, over strings of
    Unicode code points (Python's `str`). */
module PyStrings {

  /** Python's notion of whitespace: `str.isspace`, the `\s` class of `re` on
      `str` patterns and the characters `str.strip()` removes are one set. */
  predicate IsSpace(c: char) {
    ('\t' <= c <= '\r') || ('\U{1C}' <= c <= '\U{1F}') || c == ' '
    || c == '\U{85}' || c == '\U{A0}' || c == '\U{1680}'
    || ('\U{2000}' <= c <= '\U{200A}') || c == '\U{2028}' || c == '\U{2029}'
    || c == '\U{202F}' || c == '\U{205F}' || c == '\U{3000}'
  }

  /** A code point in the range `\x00-\x7F`. */
  predicate IsAscii(c: char) {
    c as int <= 0x7F
  }

  predicate StartsWith(s: string, prefix: string) {
    |prefix| <= |s| && s[..|prefix|] == prefix
  }

  predicate EndsWith(s: string, suffix: string) {
    |suffix| <= |s| && s[|s| - |suffix|..] == suffix
  }

  /** `p` occurs in `s` starting at index `i`. */
  predicate OccursAt(s: string, p: string, i: nat) {
    i + |p| <= |s| && s[i..i + |p|] == p
  }

  /** File names the corpus tools treat as text files. */
  predicate IsTxt(name: string) {
    EndsWith(name, ".txt")
  }

  /** Python's `p in s` for strings. */
  predicate Contains(s: string, p: string) {
    exists i: nat :: i <= |s| && OccursAt(s, p, i)
  }

  /** The elements of `s` that satisfy `p`, in order. */
  function Filter<T>(s: seq<T>, p: T -> bool): (r: seq<T>)
    ensures |r| <= |s|
  {
    if s == [] then [] else (if p(s[0]) then [s[0]] else []) + Filter(s[1..], p)
  }

  /** A filter keeps exactly the elements of its input that satisfy the predicate. */
  lemma {:induction false} FilterMembers<T>(s: seq<T>, p: T -> bool)
    ensures forall x :: x in Filter(s, p) <==> x in s && p(x)
  {
    if s != [] {
      FilterMembers(s[1..], p);
      assert s == [s[0]] + s[1..];
    }
  }

  lemma {:induction false} FilterAppend<T>(a: seq<T>, b: seq<T>, p: T -> bool)
    ensures Filter(a + b, p) == Filter(a, p) + Filter(b, p)
  {
    if a != [] {
      var head := if p(a[0]) then [a[0]] else [];
      assert (a + b)[0] == a[0];
      assert (a + b)[1..] == a[1..] + b;
      FilterAppend(a[1..], b, p);
      calc {
        Filter(a + b, p);
        head + Filter(a[1..] + b, p);
        head + (Filter(a[1..], p) + Filter(b, p));
        (head + Filter(a[1..], p)) + Filter(b, p);
      }
    } else {
      assert a + b == b;
    }
  }

  lemma {:induction false} FilterNone<T>(s: seq<T>, p: T -> bool)
    requires forall i :: 0 <= i < |s| ==> !p(s[i])
    ensures Filter(s, p) == []
  {
    if s != [] {
      FilterNone(s[1..], p);
    }
  }

  /** A filter whose predicate holds of every element keeps the whole sequence. */
  lemma {:induction false} FilterAll<T>(s: seq<T>, p: T -> bool)
    requires forall i :: 0 <= i < |s| ==> p(s[i])
    ensures Filter(s, p) == s
  {
    if s != [] {
      FilterAll(s[1..], p);
      assert s == [s[0]] + s[1..];
    }
  }

  /** A text occurs in any text that has it in the middle. */
  lemma ContainsMiddle(a: string, p: string, b: string)
    ensures Contains(a + p + b, p)
  {
    assert (a + p + b)[|a|..|a| + |p|] == p;
    assert OccursAt(a + p + b, p, |a|);
  }

  /** Lower-casing of one character as far as the ASCII letters go. */
  function LowerChar(c: char): (d: char)
    ensures 'A' <= c <= 'Z' ==> 'a' <= d <= 'z' && d as int == c as int + 32
    ensures !('A' <= c <= 'Z') ==> d == c
  {
    if 'A' <= c <= 'Z' then (c as int + 32) as char else c
  }

  /** `s.lower()`, with the case mapping of ASCII letters only (see README). */
  function Lower(s: string): (r: string)
    ensures |r| == |s|
    ensures forall i :: 0 <= i < |s| ==> r[i] == LowerChar(s[i])
  {
    seq(|s|, i requires 0 <= i < |s| => LowerChar(s[i]))
  }
  /** The slice of `s` at `i` as long as `p` lower-cases to `p`. */
  predicate WindowLowersTo(s: string, p: string, i: nat) {
    i + |p| <= |s| && Lower(s[i..i + |p|]) == p
  }

  /** `p in s.lower()`, read window by window: some slice of `s` as long as
      `p` lower-cases to `p`. */
  lemma ContainsLower(s: string, p: string)
    ensures Contains(Lower(s), p) <==> exists i: nat :: WindowLowersTo(s, p, i)
  {
    if Contains(Lower(s), p) {
      var i: nat :| i <= |Lower(s)| && OccursAt(Lower(s), p, i);
      assert Lower(s)[i..i + |p|] == Lower(s[i..i + |p|]);
      assert WindowLowersTo(s, p, i);
    }
    if exists i: nat :: WindowLowersTo(s, p, i) {
      var i: nat :| WindowLowersTo(s, p, i);
      assert Lower(s)[i..i + |p|] == Lower(s[i..i + |p|]);
      assert OccursAt(Lower(s), p, i);
    }
  }



  /** Index of the first character `str.strip()` keeps. */
  function StripStart(s: string): (lo: nat)
    ensures lo <= |s|
    ensures forall i :: 0 <= i < lo ==> IsSpace(s[i])
    ensures lo < |s| ==> !IsSpace(s[lo])
  {
    if s == [] || !IsSpace(s[0]) then 0 else 1 + StripStart(s[1..])
  }

  /** Index just past the last character `str.strip()` keeps. */
  function StripEnd(s: string): (hi: nat)
    ensures hi <= |s|
    ensures forall i :: hi <= i < |s| ==> IsSpace(s[i])
    ensures 0 < hi ==> !IsSpace(s[hi - 1])
  {
    if s == [] || !IsSpace(s[|s| - 1]) then |s| else StripEnd(s[..|s| - 1])
  }

  /** `s.strip()`: the slice of `s` left after removing whitespace at both ends. */
  function Strip(s: string): (r: string)
    ensures |r| <= |s|
    ensures r == [] || (!IsSpace(r[0]) && !IsSpace(r[|r| - 1]))
    ensures r == [] ==> forall i :: 0 <= i < |s| ==> IsSpace(s[i])
    ensures r != [] ==> StripStart(s) < StripEnd(s) && r == s[StripStart(s)..StripEnd(s)]
  {
    var lo, hi := StripStart(s), StripEnd(s);
    if hi <= lo then [] else s[lo..hi]
  }

  /** Stripping removes only whitespace: a filter that keeps no whitespace
      sees the same characters before and after. */
  lemma StripKeepsNonSpace(s: string, p: char -> bool)
    requires forall c :: p(c) ==> !IsSpace(c)
    ensures Filter(Strip(s), p) == Filter(s, p)
  {
    var lo, hi := StripStart(s), StripEnd(s);
    if hi <= lo {
      forall i | 0 <= i < |s| ensures !p(s[i]) {
        assert IsSpace(s[i]);
      }
      FilterNone(s, p);
    } else {
      var front, mid, back := s[..lo], s[lo..hi], s[hi..];
      assert Strip(s) == mid;
      assert s == (front + mid) + back;
      forall i | 0 <= i < |front| ensures !p(front[i]) {
        assert IsSpace(s[i]);
      }
      forall i | 0 <= i < |back| ensures !p(back[i]) {
        assert IsSpace(s[hi + i]);
      }
      FilterNone(front, p);
      FilterNone(back, p);
      FilterAppend(front, mid, p);
      assert Filter(front + mid, p) == Filter(mid, p);
      FilterAppend(front + mid, back, p);
    }
  }

  /** The stripped string occurs in the original unchanged. */
  lemma StripIsSubstring(s: string)
    ensures Contains(s, Strip(s))
  {
    var r := Strip(s);
    if r == [] {
      assert OccursAt(s, r, 0);
    } else {
      assert OccursAt(s, r, StripStart(s));
    }
  }

  /** `s.split(sep)` for a one-character separator: the pieces between
      separators, empty pieces included. */
  function Split(s: string, sep: char): (parts: seq<string>)
    ensures |parts| >= 1
    ensures forall i :: 0 <= i < |parts| ==> sep !in parts[i]
  {
    if s == [] then [""]
    else
      var rest := Split(s[1..], sep);
      if s[0] == sep then [""] + rest else [[s[0]] + rest[0]] + rest[1..]
  }

  /** `sep.join(parts)`. */
  function Join(parts: seq<string>, sep: char): string
  {
    if parts == [] then ""
    else if |parts| == 1 then parts[0]
    else parts[0] + [sep] + Join(parts[1..], sep)
  }

  /** Joining the pieces again gives back the string that was split. */
  lemma {:induction false} JoinSplit(s: string, sep: char)
    ensures Join(Split(s, sep), sep) == s
  {
    if s != [] {
      var rest := Split(s[1..], sep);
      JoinSplit(s[1..], sep);
      if s[0] == sep {
        assert Split(s, sep) == [""] + rest;
        assert ([""] + rest)[1..] == rest;
      } else {
        var parts := Split(s, sep);
        assert parts[0] == [s[0]] + rest[0];
        assert parts[1..] == rest[1..];
        if |rest| == 1 {
          assert Join(parts, sep) == [s[0]] + rest[0];
        } else {
          assert Join(rest, sep) == rest[0] + [sep] + Join(rest[1..], sep);
        }
      }
    }
  }

  /** Splitting pieces joined with a separator none of them contains gives
      the pieces back. */
  lemma {:induction false} SplitJoin(parts: seq<string>, sep: char)
    requires |parts| >= 1
    requires forall i :: 0 <= i < |parts| ==> sep !in parts[i]
    ensures Split(Join(parts, sep), sep) == parts
  {
    if |parts| == 1 {
      SplitNoSep(parts[0], sep);
    } else {
      SplitJoin(parts[1..], sep);
      SplitPrefix(parts[0], Join(parts[1..], sep), sep);
      assert [parts[0]] + parts[1..] == parts;
    }
  }

  lemma {:induction false} SplitNoSep(s: string, sep: char)
    requires sep !in s
    ensures Split(s, sep) == [s]
  {
    if s != [] {
      SplitNoSep(s[1..], sep);
      assert [s[0]] + s[1..] == s;
    }
  }

  lemma {:induction false} SplitPrefix(a: string, b: string, sep: char)
    requires sep !in a
    ensures Split(a + [sep] + b, sep) == [a] + Split(b, sep)
  {
    if a == [] {
      assert (a + [sep] + b)[1..] == b;
    } else {
      assert (a + [sep] + b)[1..] == a[1..] + [sep] + b;
      SplitPrefix(a[1..], b, sep);
      assert [a[0]] + a[1..] == a;
    }
  }

  /** A string splits into two or more pieces exactly when it holds the separator. */
  lemma {:induction false} SplitMany(s: string, sep: char)
    ensures |Split(s, sep)| >= 2 <==> sep in s
  {
    if s != [] {
      SplitMany(s[1..], sep);
      assert s == [s[0]] + s[1..];
    }
  }

  /** `s.replace(pat, "")`: every non-overlapping occurrence of `pat`, found
      from left to right, is deleted. */
  function RemoveAll(s: string, pat: string): (r: string)
    requires pat != []
    ensures |r| <= |s|
    decreases |s|
  {
    if |s| < |pat| then s
    else if s[..|pat|] == pat then RemoveAll(s[|pat|..], pat)
    else [s[0]] + RemoveAll(s[1..], pat)
  }

  /** Removing `pat` from a text followed by one `pat` gives the text back
      when the text holds no character `pat` starts with. */
  lemma {:induction false} RemoveAllSuffix(s: string, pat: string)
    requires pat != [] && pat[0] !in s
    ensures RemoveAll(s + pat, pat) == s
    decreases |s|
  {
    var t := s + pat;
    if s == [] {
      assert t == pat && t[..|pat|] == pat && t[|pat|..] == [];
    } else {
      assert t[..|pat|][0] == s[0] != pat[0];
      assert t[1..] == s[1..] + pat;
      RemoveAllSuffix(s[1..], pat);
      assert [s[0]] + s[1..] == s;
    }
  }

  /** A text without the first character of `pat` is left as it is. */
  lemma {:induction false} RemoveAllNoStart(s: string, pat: string)
    requires pat != [] && pat[0] !in s
    ensures RemoveAll(s, pat) == s
    decreases |s|
  {
    if |s| >= |pat| {
      assert s[..|pat|][0] == s[0] != pat[0];
      RemoveAllNoStart(s[1..], pat);
      assert [s[0]] + s[1..] == s;
    }
  }

  /** Every occurrence is removed, not only the last: removing `pat` from
      `a + pat + b` removes it from `a` and from `b` and drops the occurrence
      between them, when `a` holds no character `pat` starts with. */
  lemma {:induction false} RemoveAllConcat(a: string, pat: string, b: string)
    requires pat != [] && pat[0] !in a
    ensures RemoveAll(a + pat + b, pat) == RemoveAll(a, pat) + RemoveAll(b, pat)
    decreases |a|
  {
    var t := a + pat + b;
    if a == [] {
      assert t == pat + b && t[..|pat|] == pat && t[|pat|..] == b;
    } else {
      assert t[..|pat|][0] == a[0] != pat[0];
      assert t[1..] == a[1..] + pat + b;
      assert RemoveAll(t, pat) == [a[0]] + RemoveAll(a[1..] + pat + b, pat);
      RemoveAllConcat(a[1..], pat, b);
      assert RemoveAll(a, pat) == [a[0]] + RemoveAll(a[1..], pat) by {
        if |a| < |pat| {
          RemoveAllNoStart(a[1..], pat);
          assert [a[0]] + a[1..] == a;
        } else {
          assert a[..|pat|][0] == a[0];
        }
      }
    }
  }

  /** A string without an occurrence of `pat` is left as it is. */
  lemma {:induction false} RemoveAllAbsent(s: string, pat: string)
    requires pat != []
    requires !Contains(s, pat)
    ensures RemoveAll(s, pat) == s
    decreases |s|
  {
    if |s| >= |pat| {
      assert !OccursAt(s, pat, 0);
      assert s[..|pat|] == s[0..|pat|];
      if Contains(s[1..], pat) {
        var i: nat :| i <= |s[1..]| && OccursAt(s[1..], pat, i);
        assert i + 1 + |pat| <= |s|;
        assert s[1..][i..i + |pat|] == s[i + 1..i + 1 + |pat|];
        assert OccursAt(s, pat, i + 1);
      }
      RemoveAllAbsent(s[1..], pat);
      assert [s[0]] + s[1..] == s;
    }
  }
}
