/** The text normaliser of the corpus-cleaning script and the loop that
    applies it to every `.txt` file of the raw corpus. */
module CleanData {
  import opened PyStrings

  /** Characters that are neither whitespace nor outside ASCII: the ones the
      normaliser is meant to keep. */
  predicate Visible(c: char) {
    IsAscii(c) && !IsSpace(c)
  }

  /** No two spaces side by side. */
  predicate NoDoubleSpace(s: string) {
    forall i :: 0 <= i < |s| - 1 ==> !(s[i] == ' ' && s[i + 1] == ' ')
  }

  /** Every whitespace character of `s` is the plain space. */
  predicate OnlyPlainSpaces(s: string) {
    forall i :: 0 <= i < |s| && IsSpace(s[i]) ==> s[i] == ' '
  }

  /** `re.sub(r'\s+', ' ', s)` scanning from a state that knows whether the
      previous character was whitespace: a run of whitespace yields one space. */
  function CollapseFrom(s: string, inRun: bool): (r: string)
    ensures |r| <= |s|
  {
    if s == [] then []
    else if IsSpace(s[0]) then
      if inRun then CollapseFrom(s[1..], true) else [' '] + CollapseFrom(s[1..], true)
    else [s[0]] + CollapseFrom(s[1..], false)
  }

  /** Step 1: every maximal run of whitespace becomes a single space (see
      `CollapseRunToOneSpace`). Only plain spaces remain, never two in a row,
      and the visible characters are kept in order. */
  function CollapseWhitespace(s: string): (r: string)
    ensures |r| <= |s|
    ensures OnlyPlainSpaces(r) && NoDoubleSpace(r)
    ensures Filter(r, Visible) == Filter(s, Visible)
  {
    CollapseFromFacts(s, false, Visible);
    CollapseFrom(s, false)
  }

  /** Step 2: `re.sub(r'[^\x00-\x7F]+', '', s)`, every non-ASCII character
      dropped: exactly the ASCII characters of the input remain. */
  function DropNonAscii(s: string): (r: string)
    ensures |r| <= |s|
    ensures forall c :: c in r <==> c in s && IsAscii(c)
  {
    FilterMembers(s, IsAscii);
    Filter(s, IsAscii)
  }

  /** `clean_text`: collapse whitespace, drop non-ASCII characters, strip. The
      result is never longer than the input and has no whitespace at either end. */
  function CleanText(s: string): (r: string)
    ensures |r| <= |s|
    ensures r == [] || (!IsSpace(r[0]) && !IsSpace(r[|r| - 1]))
  {
    Strip(DropNonAscii(CollapseWhitespace(s)))
  }

  /** What the collapse step guarantees: whitespace left is plain spaces, never
      two in a row, nothing but whitespace is touched, and after a whitespace
      character (`inRun`) the output does not start with a space. */
  lemma {:induction false} CollapseFromFacts(s: string, inRun: bool, p: char -> bool)
    requires forall c :: p(c) ==> !IsSpace(c)
    ensures OnlyPlainSpaces(CollapseFrom(s, inRun))
    ensures NoDoubleSpace(CollapseFrom(s, inRun))
    ensures inRun && CollapseFrom(s, inRun) != [] ==> CollapseFrom(s, inRun)[0] != ' '
    ensures Filter(CollapseFrom(s, inRun), p) == Filter(s, p)
  {
    if s != [] {
      var r := CollapseFrom(s, inRun);
      assert s == [s[0]] + s[1..];
      FilterAppend([s[0]], s[1..], p);
      if IsSpace(s[0]) {
        var t := CollapseFrom(s[1..], true);
        CollapseFromFacts(s[1..], true, p);
        assert Filter([s[0]], p) == [];
        if !inRun {
          assert r == [' '] + t;
          FilterAppend([' '], t, p);
          assert Filter([' '], p) == [];
        }
      } else {
        var t := CollapseFrom(s[1..], false);
        CollapseFromFacts(s[1..], false, p);
        assert r == [s[0]] + t;
        FilterAppend([s[0]], t, p);
      }
    }
  }

  /** Text that ends in a visible character collapses independently of what
      follows it. */
  lemma {:induction false} CollapseFromAppend(a: string, t: string, inRun: bool)
    requires a != [] && !IsSpace(a[|a| - 1])
    ensures CollapseFrom(a + t, inRun) == CollapseFrom(a, inRun) + CollapseFrom(t, false)
  {
    assert (a + t)[0] == a[0] && (a + t)[1..] == a[1..] + t;
    if |a| == 1 {
      assert a[1..] == [] && a[1..] + t == t;
    } else {
      CollapseFromAppend(a[1..], t, IsSpace(a[0]));
    }
  }

  /** Whitespace read while already inside a run produces nothing. */
  lemma {:induction false} CollapseSkipsRun(w: string, t: string)
    requires forall i :: 0 <= i < |w| ==> IsSpace(w[i])
    ensures CollapseFrom(w + t, true) == CollapseFrom(t, true)
  {
    if w != [] {
      assert (w + t)[0] == w[0] && (w + t)[1..] == w[1..] + t;
      CollapseSkipsRun(w[1..], t);
    } else {
      assert w + t == t;
    }
  }

  /** A non-empty run of whitespace between two words becomes exactly one
      space: it neither disappears nor survives in full. */
  lemma CollapseRunToOneSpace(a: string, w: string, b: string)
    requires a == [] || !IsSpace(a[|a| - 1])
    requires w != [] && forall i :: 0 <= i < |w| ==> IsSpace(w[i])
    requires b == [] || !IsSpace(b[0])
    ensures CollapseWhitespace(a + w + b) == CollapseWhitespace(a) + " " + CollapseWhitespace(b)
  {
    assert (w + b)[0] == w[0] && (w + b)[1..] == w[1..] + b;
    CollapseSkipsRun(w[1..], b);
    assert CollapseFrom(w + b, false) == " " + CollapseFrom(b, true);
    assert CollapseFrom(b, true) == CollapseFrom(b, false);
    if a == [] {
      assert a + w + b == w + b;
    } else {
      assert a + w + b == a + (w + b);
      CollapseFromAppend(a, w + b, false);
    }
  }

  /** Dropping non-ASCII characters leaves the ASCII ones where they were:
      whatever selection of ASCII characters `p` makes (the visible ones, the
      spaces, all of them) sees the same sequence before and after. */
  lemma {:induction false} DropNonAsciiKeepsAscii(s: string, p: char -> bool)
    requires forall c :: p(c) ==> IsAscii(c)
    ensures Filter(DropNonAscii(s), p) == Filter(s, p)
  {
    if s != [] {
      assert s == [s[0]] + s[1..];
      FilterAppend([s[0]], s[1..], IsAscii);
      FilterAppend([s[0]], s[1..], p);
      var head := Filter([s[0]], IsAscii);
      FilterAppend(head, DropNonAscii(s[1..]), p);
      DropNonAsciiKeepsAscii(s[1..], p);
      if IsAscii(s[0]) {
        assert head == [s[0]];
      } else {
        assert head == [];
        assert Filter([s[0]], p) == [];
      }
    }
  }

  /** Every character of the cleaned text is in the range `\x00-\x7F`. */
  lemma CleanTextIsAscii(s: string)
    ensures forall i :: 0 <= i < |CleanText(s)| ==> IsAscii(CleanText(s)[i])
  {
    var d := DropNonAscii(CollapseWhitespace(s));
    var r := CleanText(s);
    FilterMembers(CollapseWhitespace(s), IsAscii);
    forall i | 0 <= i < |r|
      ensures IsAscii(r[i])
    {
      assert r[i] == d[StripStart(d) + i];
      assert d[StripStart(d) + i] in d;
    }
  }

  /** Tabs, newlines and every other whitespace character are gone: the only
      whitespace the cleaned text can hold is the plain space. */
  lemma CleanTextOnlyPlainSpaces(s: string)
    ensures OnlyPlainSpaces(CleanText(s))
  {
    var c := CollapseWhitespace(s);
    var d := DropNonAscii(c);
    var r := CleanText(s);
    CollapseFromFacts(s, false, Visible);
    FilterMembers(c, IsAscii);
    forall i | 0 <= i < |r| && IsSpace(r[i])
      ensures r[i] == ' '
    {
      assert r[i] == d[StripStart(d) + i];
      assert d[StripStart(d) + i] in d;
      assert r[i] in c;
    }
  }

  /** The visible characters of the input all survive, in their order, and
      they are all the output holds apart from plain spaces. */
  lemma CleanTextKeepsVisible(s: string)
    ensures Filter(CleanText(s), Visible) == Filter(s, Visible)
    ensures forall i :: 0 <= i < |CleanText(s)| ==> CleanText(s)[i] == ' ' || Visible(CleanText(s)[i])
  {
    var c := CollapseWhitespace(s);
    var d := DropNonAscii(c);
    CollapseFromFacts(s, false, Visible);
    DropNonAsciiKeepsAscii(c, Visible);
    StripKeepsNonSpace(d, Visible);
    CleanTextIsAscii(s);
    CleanTextOnlyPlainSpaces(s);
  }

  /** On ASCII text the second step changes nothing, so cleaning is collapsing
      and stripping: every single space between two words stays in place. */
  lemma CleanTextOfAscii(s: string)
    requires forall i :: 0 <= i < |s| ==> IsAscii(s[i])
    ensures CleanText(s) == Strip(CollapseWhitespace(s))
  {
    var c := CollapseWhitespace(s);
    var foreign := (x: char) => !IsAscii(x) && !IsSpace(x);
    CollapseFromFacts(s, false, foreign);
    FilterNone(s, foreign);
    FilterMembers(c, foreign);
    forall i | 0 <= i < |c| ensures IsAscii(c[i]) {
      assert c[i] in c;
    }
    FilterAll(c, IsAscii);
  }

  /** The collapse step leaves `a é b` alone: its whitespace runs are single spaces. */
  lemma CollapseExample()
    ensures CollapseWhitespace("a \U{E9} b") == "a \U{E9} b"
  {
  }

  /** Dropping the non-ASCII letter of `a é b` leaves two spaces side by side. */
  lemma DropExample()
    ensures DropNonAscii("a \U{E9} b") == "a  b"
  {
  }

  /** Collapsing runs before dropping non-ASCII characters, so a non-ASCII
      word between two spaces leaves two spaces behind: the cleaned text can
      hold a double space, unlike the output of the collapse step alone. */
  lemma CleanTextCanKeepDoubleSpace()
    ensures CleanText("a \U{E9} b") == "a  b"
    ensures !NoDoubleSpace(CleanText("a \U{E9} b"))
  {
    CollapseExample();
    DropExample();
    assert StripStart("a  b") == 0;
    assert StripEnd("a  b") == 4;
    assert "a  b"[1] == ' ' && "a  b"[2] == ' ';
  }

  /** Cleaning is not idempotent: cleaning the text above again removes the
      double space. */
  lemma CleanTextNotIdempotent()
    ensures CleanText(CleanText("a \U{E9} b")) != CleanText("a \U{E9} b")
  {
    CleanTextCanKeepDoubleSpace();
    assert CollapseWhitespace("a  b") == "a b";
    assert DropNonAscii("a b") == "a b";
    assert StripStart("a b") == 0;
    assert StripEnd("a b") == 3;
  }

  /** The script's loop over the raw directory listing: each `.txt` file is
      read from `raw`, cleaned and written under the same name into `clean`,
      whose other files are left as they were; other names are skipped. */
  method CleanCorpus(listing: seq<string>, raw: map<string, string>, clean: map<string, string>)
    returns (written: map<string, string>)
    requires forall n :: n in listing && IsTxt(n) ==> n in raw
    ensures forall n :: n in written <==> n in clean || (n in listing && IsTxt(n))
    ensures forall n :: n in written ==>
      written[n] == if n in listing && IsTxt(n) then CleanText(raw[n]) else clean[n]
  {
    written := clean;
    for i := 0 to |listing|
      invariant forall n :: n in written <==> n in clean || (n in listing[..i] && IsTxt(n))
      invariant forall n :: n in written ==>
        written[n] == if n in listing[..i] && IsTxt(n) then CleanText(raw[n]) else clean[n]
    {
      var name := listing[i];
      assert listing[..i + 1] == listing[..i] + [name];
      if IsTxt(name) {
        var cleaned := CleanText(raw[name]);
        written := written[name := cleaned];
      }
    }
    assert listing[..|listing|] == listing;
  }
}
