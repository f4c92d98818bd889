/** What `_clean_text` guarantees, and where it falls short of idempotence. */
module TextCleanLemmas {
  import opened TextClean

  // ---------------------------------------------------------------------------
  // "r is the image of a subsequence of x"
  // ---------------------------------------------------------------------------

  /** `r` is obtained from `x` by deleting characters and sending every
      character that stays through `f`, so the kept ones keep their order */
  ghost predicate IsImage(f: char -> char, r: string, x: string)
    decreases |x|
  {
    if |r| == 0 then true
    else if |x| == 0 then false
    else (r[0] == f(x[0]) && IsImage(f, r[1..], x[1..])) || IsImage(f, r, x[1..])
  }

  lemma {:induction false} ImageLength(f: char -> char, r: string, x: string)
    requires IsImage(f, r, x)
    ensures |r| <= |x|
    decreases |x|
  {
    if |r| > 0 {
      if r[0] == f(x[0]) && IsImage(f, r[1..], x[1..]) {
        ImageLength(f, r[1..], x[1..]);
      } else {
        ImageLength(f, r, x[1..]);
      }
    }
  }

  /** Every character of the image comes from some character of `x` */
  lemma {:induction false} ImageSource(f: char -> char, r: string, x: string, i: nat) returns (j: nat)
    requires IsImage(f, r, x) && i < |r|
    ensures j < |x| && r[i] == f(x[j])
    decreases |x|
  {
    if r[0] == f(x[0]) && IsImage(f, r[1..], x[1..]) {
      if i == 0 {
        j := 0;
      } else {
        j := ImageSource(f, r[1..], x[1..], i - 1);
        j := j + 1;
      }
    } else {
      j := ImageSource(f, r, x[1..], i);
      j := j + 1;
    }
  }

  lemma {:induction false} ImagePointwise(f: char -> char, r: string, x: string)
    requires |r| == |x| && forall i :: 0 <= i < |x| ==> r[i] == f(x[i])
    ensures IsImage(f, r, x)
    decreases |x|
  {
    if |x| > 0 {
      ImagePointwise(f, r[1..], x[1..]);
    }
  }

  lemma {:induction false} ImageDrop(f: char -> char, r: string, x: string, k: nat)
    requires k <= |x| && IsImage(f, r, x[k..])
    ensures IsImage(f, r, x)
    decreases k
  {
    if k == 0 {
      assert x[k..] == x;
    } else {
      assert x[k..] == x[1..][k - 1..];
      ImageDrop(f, r, x[1..], k - 1);
    }
  }

  lemma {:induction false} ImageExtend(f: char -> char, r: string, x: string, y: string)
    requires IsImage(f, r, x)
    ensures IsImage(f, r, x + y)
    decreases |x|
  {
    if |r| > 0 {
      assert (x + y)[0] == x[0] && (x + y)[1..] == x[1..] + y;
      if r[0] == f(x[0]) && IsImage(f, r[1..], x[1..]) {
        ImageExtend(f, r[1..], x[1..], y);
      } else {
        ImageExtend(f, r, x[1..], y);
      }
    }
  }

  lemma {:induction false} ImageCompose(f: char -> char, g: char -> char, h: char -> char,
                                        r: string, y: string, x: string)
    requires IsImage(g, r, y) && IsImage(f, y, x)
    requires forall c :: h(c) == g(f(c))
    ensures IsImage(h, r, x)
    decreases |x|
  {
    if |r| > 0 {
      assert |y| > 0;
      if y[0] == f(x[0]) && IsImage(f, y[1..], x[1..]) {
        if r[0] == g(y[0]) && IsImage(g, r[1..], y[1..]) {
          ImageCompose(f, g, h, r[1..], y[1..], x[1..]);
        } else {
          ImageCompose(f, g, h, r, y[1..], x[1..]);
        }
      } else {
        ImageCompose(f, g, h, r, y, x[1..]);
      }
    }
  }

  // ---------------------------------------------------------------------------
  // Each step
  // ---------------------------------------------------------------------------

  /** `str.strip()` leaves a contiguous part of the input and removes only
      whitespace around it */
  lemma StripInfix(u: CharClasses, s: string) returns (k: nat)
    ensures k + |Strip(u, s)| <= |s| && Strip(u, s) == s[k..k + |Strip(u, s)|]
    ensures forall i :: 0 <= i < k ==> u.isSpace(s[i])
    ensures forall i :: k + |Strip(u, s)| <= i < |s| ==> u.isSpace(s[i])
  {
    var t := TrimStart(u, s);
    k := |s| - |t|;
    assert Strip(u, s) == t[..|Strip(u, s)|];
  }

  lemma StripImage(u: CharClasses, s: string)
    ensures IsImage(c => c, Strip(u, s), s)
  {
    var r := Strip(u, s);
    var k := StripInfix(u, s);
    ImagePointwise(c => c, r, r);
    assert s[k..] == r + s[k + |r|..];
    ImageExtend(c => c, r, r, s[k + |r|..]);
    ImageDrop(c => c, r, s, k);
  }

  lemma StripOfSpaces(u: CharClasses, s: string)
    requires forall i :: 0 <= i < |s| ==> u.isSpace(s[i])
    ensures Strip(u, s) == []
  {
    var k := StripInfix(u, s);
  }

  lemma StripNonSpace(u: CharClasses, s: string)
    ensures NonSpace(u, Strip(u, s)) == NonSpace(u, s)
  {
    var r := Strip(u, s);
    var k := StripInfix(u, s);
    NonSpaceInfix(u, s, k, |r|);
    assert s[k..k + |r|] == r;
  }

  lemma SplitThree<T>(s: seq<T>, k: nat, n: nat)
    requires k + n <= |s|
    ensures s == s[..k] + (s[k..k + n] + s[k + n..])
  {
    assert s[k..] == s[k..k + n] + s[k + n..];
  }

  /** Cutting whitespace off both ends loses no non-whitespace character */
  lemma NonSpaceInfix(u: CharClasses, s: string, k: nat, n: nat)
    requires k + n <= |s|
    requires forall i :: 0 <= i < k ==> u.isSpace(s[i])
    requires forall i :: k + n <= i < |s| ==> u.isSpace(s[i])
    ensures NonSpace(u, s[k..k + n]) == NonSpace(u, s)
  {
    var a, r, c := s[..k], s[k..k + n], s[k + n..];
    SplitThree(s, k, n);
    NonSpaceOfSpaces(u, a);
    NonSpaceOfSpaces(u, c);
    NonSpaceAppend(u, a, r + c);
    assert NonSpace(u, s) == NonSpace(u, r + c);
    NonSpaceAppend(u, r, c);
  }



  lemma StripIdentity(u: CharClasses, s: string)
    requires |s| > 0 ==> !u.isSpace(s[0]) && !u.isSpace(s[|s| - 1])
    ensures Strip(u, s) == s
  {
  }

  /** The first and last characters of the collapsed text, and emptiness */
  lemma CollapseEnds(u: CharClasses, s: string)
    ensures |Collapse(u, s)| == 0 <==> |s| == 0
    ensures |s| > 0 ==> Collapse(u, s)[0] == Blank(u, s[0])
    ensures |s| > 0 ==> Collapse(u, s)[|Collapse(u, s)| - 1] == Blank(u, s[|s| - 1])
  {
    if |s| > 0 {
      CollapseLast(u, s);
    }
  }

  /** The last character of the collapsed text stands for the input's last one */
  lemma {:induction false} CollapseLast(u: CharClasses, s: string)
    requires |s| > 0
    ensures |Collapse(u, s)| > 0
    ensures Collapse(u, s)[|Collapse(u, s)| - 1] == Blank(u, s[|s| - 1])
    decreases |s|
  {
    if u.isSpace(s[0]) {
      var t := TrimStart(u, s);
      if |t| == 0 {
        assert u.isSpace(s[|s| - 1]);
      } else {
        CollapseLast(u, t);
        assert t[|t| - 1] == s[|s| - 1];
      }
    } else if |s| > 1 {
      CollapseLast(u, s[1..]);
      assert s[1..][|s| - 2] == s[|s| - 1];
    }
  }

  /** After the first substitution the only whitespace is `' '` */
  lemma {:induction false} CollapseOnlySpace(u: CharClasses, s: string)
    ensures forall i :: 0 <= i < |Collapse(u, s)| && u.isSpace(Collapse(u, s)[i]) ==> Collapse(u, s)[i] == ' '
    decreases |s|
  {
    if |s| > 0 {
      var r := Collapse(u, s);
      var t := if u.isSpace(s[0]) then TrimStart(u, s) else s[1..];
      CollapseOnlySpace(u, t);
      assert r == [Blank(u, s[0])] + Collapse(u, t);
      forall i | 1 <= i < |r|
        ensures r[i] == Collapse(u, t)[i - 1]
      {
      }
    }
  }

  /** ... and it never comes twice in a row */
  lemma {:induction false} CollapseNoDoubleSpace(u: CharClasses, s: string)
    ensures forall i :: 0 <= i < |Collapse(u, s)| - 1 && u.isSpace(Collapse(u, s)[i])
                        ==> !u.isSpace(Collapse(u, s)[i + 1])
    decreases |s|
  {
    if |s| > 0 {
      var r := Collapse(u, s);
      var t := if u.isSpace(s[0]) then TrimStart(u, s) else s[1..];
      CollapseNoDoubleSpace(u, t);
      CollapseEnds(u, t);
      var rt := Collapse(u, t);
      assert r == [Blank(u, s[0])] + rt;
      forall i | 0 <= i < |r| - 1 && u.isSpace(r[i])
        ensures !u.isSpace(r[i + 1])
      {
        if i > 0 {
          assert r[i] == rt[i - 1] && r[i + 1] == rt[i];
        } else if u.isSpace(s[0]) {
          assert r[1] == rt[0] == Blank(u, t[0]) == t[0];
        }
      }
    }
  }

  /** The first substitution neither loses nor adds non-whitespace */
  lemma {:induction false} CollapseNonSpace(u: CharClasses, s: string)
    requires u.isSpace(' ')
    ensures NonSpace(u, Collapse(u, s)) == NonSpace(u, s)
    decreases |s|
  {
    if |s| > 0 {
      if u.isSpace(s[0]) {
        CollapseNonSpace(u, TrimStart(u, s));
        CollapseNonSpaceRun(u, s);
      } else {
        CollapseNonSpace(u, s[1..]);
        CollapseNonSpaceChar(u, s);
      }
    }
  }

  lemma CollapseNonSpaceRun(u: CharClasses, s: string)
    requires u.isSpace(' ') && |s| > 0 && u.isSpace(s[0])
    requires NonSpace(u, Collapse(u, TrimStart(u, s))) == NonSpace(u, TrimStart(u, s))
    ensures NonSpace(u, Collapse(u, s)) == NonSpace(u, s)
  {
    var t := TrimStart(u, s);
    var w := TrimStartSplit(u, s);
    CollapseLeadingRun(u, w, t);
    NonSpaceOfSpaces(u, w);
    NonSpaceAppend(u, w, t);
    NonSpaceSpaceCons(u, Collapse(u, t));
  }

  /** Trimming splits text that starts with whitespace into a nonempty
      whitespace run and the rest */
  lemma TrimStartSplit(u: CharClasses, s: string) returns (w: string)
    requires |s| > 0 && u.isSpace(s[0])
    ensures |w| > 0 && s == w + TrimStart(u, s)
    ensures forall i :: 0 <= i < |w| ==> u.isSpace(w[i])
  {
    w := s[..|s| - |TrimStart(u, s)|];
  }

  lemma NonSpaceSpaceCons(u: CharClasses, s: string)
    requires u.isSpace(' ')
    ensures NonSpace(u, [' '] + s) == NonSpace(u, s)
  {
    assert ([' '] + s)[1..] == s;
  }

  lemma NonSpaceCharCons(u: CharClasses, c: char, s: string)
    requires !u.isSpace(c)
    ensures NonSpace(u, [c] + s) == [c] + NonSpace(u, s)
  {
    assert ([c] + s)[1..] == s;
  }

  lemma CollapseNonSpaceChar(u: CharClasses, s: string)
    requires |s| > 0 && !u.isSpace(s[0])
    requires NonSpace(u, Collapse(u, s[1..])) == NonSpace(u, s[1..])
    ensures NonSpace(u, Collapse(u, s)) == NonSpace(u, s)
  {
    NonSpaceCharCons(u, s[0], Collapse(u, s[1..]));
  }

  /** A whitespace run of the input leaves a `' '` behind */
  lemma {:induction false} CollapseKeepsSpace(u: CharClasses, s: string, i: nat)
    requires i < |s| && u.isSpace(s[i])
    ensures ' ' in Collapse(u, s)
    decreases |s|
  {
    if u.isSpace(s[0]) {
      assert Collapse(u, s)[0] == ' ';
    } else {
      CollapseKeepsSpace(u, s[1..], i - 1);
      assert Collapse(u, s) == [s[0]] + Collapse(u, s[1..]);
    }
  }

  lemma {:induction false} CollapseImage(u: CharClasses, s: string)
    ensures IsImage(c => Blank(u, c), Collapse(u, s), s)
    decreases |s|
  {
    var f := c => Blank(u, c);
    if |s| > 0 {
      var r := Collapse(u, s);
      if u.isSpace(s[0]) {
        var t := TrimStart(u, s);
        CollapseImage(u, t);
        assert t == s[1..][|s| - |t| - 1..];
        ImageDrop(f, Collapse(u, t), s[1..], |s| - |t| - 1);
        assert r[0] == f(s[0]) && r[1..] == Collapse(u, t);
      } else {
        CollapseImage(u, s[1..]);
        assert r[0] == f(s[0]) && r[1..] == Collapse(u, s[1..]);
      }
    }
  }

  /** Text that is already collapsed is left alone by the first substitution */
  lemma {:induction false} CollapseIdentity(u: CharClasses, s: string)
    requires forall i :: 0 <= i < |s| && u.isSpace(s[i]) ==> s[i] == ' '
    requires forall i :: 0 <= i < |s| - 1 && u.isSpace(s[i]) ==> !u.isSpace(s[i + 1])
    ensures Collapse(u, s) == s
    decreases |s|
  {
    if |s| > 0 {
      CollapseIdentity(u, s[1..]);
      if u.isSpace(s[0]) {
        assert TrimStart(u, s) == TrimStart(u, s[1..]) == s[1..];
      }
    }
  }

  /** Trimming a whitespace run in front of non-whitespace removes exactly
      the run */
  lemma {:induction false} TrimStartSpaces(u: CharClasses, w: string, b: string)
    requires forall i :: 0 <= i < |w| ==> u.isSpace(w[i])
    requires |b| == 0 || !u.isSpace(b[0])
    ensures TrimStart(u, w + b) == b
    decreases |w|
  {
    if |w| == 0 {
      assert w + b == b;
    } else {
      assert (w + b)[0] == w[0] && (w + b)[1..] == w[1..] + b;
      TrimStartSpaces(u, w[1..], b);
    }
  }

  /** Collapsing works piece by piece across a non-whitespace character */
  lemma {:induction false} CollapseAppend(u: CharClasses, a: string, t: string)
    requires |a| == 0 || !u.isSpace(a[|a| - 1])
    ensures Collapse(u, a + t) == Collapse(u, a) + Collapse(u, t)
    decreases |a|
  {
    if |a| == 0 {
      assert a + t == t;
    } else if !u.isSpace(a[0]) {
      CollapseAppend(u, a[1..], t);
      CollapseCharStep(u, a, t);
    } else {
      assert |a| > 1;
      CollapseAppend(u, a[1..], t);
      if u.isSpace(a[1]) {
        CollapseSpaceSpaceStep(u, a, t);
      } else {
        CollapseSpaceCharStep(u, a, t);
      }
    }
  }

  lemma CollapseCharStep(u: CharClasses, a: string, t: string)
    requires |a| > 0 && !u.isSpace(a[0])
    requires Collapse(u, a[1..] + t) == Collapse(u, a[1..]) + Collapse(u, t)
    ensures Collapse(u, a + t) == Collapse(u, a) + Collapse(u, t)
  {
    ConsAppend(a, t);
    assert Collapse(u, a + t) == [a[0]] + Collapse(u, a[1..] + t);
    Assoc([a[0]], Collapse(u, a[1..]), Collapse(u, t));
  }

  lemma CollapseSpaceSpaceStep(u: CharClasses, a: string, t: string)
    requires |a| > 1 && u.isSpace(a[0]) && u.isSpace(a[1])
    requires Collapse(u, a[1..] + t) == Collapse(u, a[1..]) + Collapse(u, t)
    ensures Collapse(u, a + t) == Collapse(u, a) + Collapse(u, t)
  {
    ConsAppend(a, t);
    assert (a + t)[1] == a[1];
    CollapseSpaceSpace(u, a);
    CollapseSpaceSpace(u, a + t);
  }

  lemma CollapseSpaceCharStep(u: CharClasses, a: string, t: string)
    requires |a| > 1 && u.isSpace(a[0]) && !u.isSpace(a[1])
    requires Collapse(u, a[1..] + t) == Collapse(u, a[1..]) + Collapse(u, t)
    ensures Collapse(u, a + t) == Collapse(u, a) + Collapse(u, t)
  {
    ConsAppend(a, t);
    assert (a + t)[1] == a[1];
    CollapseSpaceChar(u, a);
    CollapseSpaceChar(u, a + t);
    Assoc([' '], Collapse(u, a[1..]), Collapse(u, t));
  }

  /** A whitespace character followed by whitespace adds nothing */
  lemma CollapseSpaceSpace(u: CharClasses, s: string)
    requires |s| > 1 && u.isSpace(s[0]) && u.isSpace(s[1])
    ensures Collapse(u, s) == Collapse(u, s[1..])
  {
    assert TrimStart(u, s) == TrimStart(u, s[1..]);
    assert s[1..][0] == s[1];
  }

  /** A whitespace character followed by non-whitespace becomes `' '` */
  lemma CollapseSpaceChar(u: CharClasses, s: string)
    requires |s| > 1 && u.isSpace(s[0]) && !u.isSpace(s[1])
    ensures Collapse(u, s) == [' '] + Collapse(u, s[1..])
  {
    assert s[1..][0] == s[1];
    assert TrimStart(u, s[1..]) == s[1..];
  }

  lemma Assoc<T>(x: seq<T>, y: seq<T>, z: seq<T>)
    ensures x + (y + z) == (x + y) + z
  {
  }

  lemma ConsAppend(a: string, t: string)
    requires |a| > 0
    ensures (a + t)[0] == a[0] && (a + t)[1..] == a[1..] + t
  {
  }

  /** Each whitespace run becomes one `' '` in its own place: between
      non-whitespace neighbours, a run `w` turns into a single space */
  lemma CollapseRun(u: CharClasses, a: string, w: string, b: string)
    requires |a| == 0 || !u.isSpace(a[|a| - 1])
    requires |w| > 0 && forall i :: 0 <= i < |w| ==> u.isSpace(w[i])
    requires |b| == 0 || !u.isSpace(b[0])
    ensures Collapse(u, a + (w + b)) == Collapse(u, a) + ([' '] + Collapse(u, b))
  {
    CollapseAppend(u, a, w + b);
    CollapseLeadingRun(u, w, b);
  }

  lemma CollapseLeadingRun(u: CharClasses, w: string, b: string)
    requires |w| > 0 && forall i :: 0 <= i < |w| ==> u.isSpace(w[i])
    requires |b| == 0 || !u.isSpace(b[0])
    ensures Collapse(u, w + b) == [' '] + Collapse(u, b)
  {
    assert (w + b)[0] == w[0];
    TrimStartSpaces(u, w, b);
  }

  /** The second substitution keeps every occurrence of a kept character
      and no occurrence of any other */
  lemma {:induction false} FilterCount(u: CharClasses, s: string, c: char)
    ensures multiset(Filter(u, s))[c] == if Kept(u, c) then multiset(s)[c] else 0
    decreases |s|
  {
    if |s| > 0 {
      FilterCount(u, s[1..], c);
      assert s == [s[0]] + s[1..];
    }
  }

  lemma {:induction false} FilterAppend(u: CharClasses, a: string, b: string)
    ensures Filter(u, a + b) == Filter(u, a) + Filter(u, b)
    decreases |a|
  {
    if |a| == 0 {
      assert a + b == b;
    } else {
      assert (a + b)[0] == a[0] && (a + b)[1..] == a[1..] + b;
      FilterAppend(u, a[1..], b);
    }
  }

  /** Deleting characters and dropping whitespace commute */
  lemma {:induction false} NonSpaceFilter(u: CharClasses, s: string)
    ensures NonSpace(u, Filter(u, s)) == Filter(u, NonSpace(u, s))
    decreases |s|
  {
    if |s| > 0 {
      NonSpaceFilter(u, s[1..]);
      var h: string := if Kept(u, s[0]) then [s[0]] else [];
      assert Filter(u, s) == h + Filter(u, s[1..]);
      NonSpaceAppend(u, h, Filter(u, s[1..]));
      var g: string := if u.isSpace(s[0]) then [] else [s[0]];
      FilterAppend(u, g, NonSpace(u, s[1..]));
    }
  }

  /** Lower-casing and dropping whitespace commute when `lower` keeps
      whitespace-ness */
  lemma {:induction false} NonSpaceLower(u: CharClasses, s: string)
    requires forall c: char :: u.isSpace(u.lower(c)) == u.isSpace(c)
    ensures NonSpace(u, Lower(u, s)) == Lower(u, NonSpace(u, s))
    decreases |s|
  {
    if |s| > 0 {
      NonSpaceLower(u, s[1..]);
      var l := Lower(u, s);
      assert l[0] == u.lower(s[0]) && l[1..] == Lower(u, s[1..]);
      var g: string := if u.isSpace(s[0]) then [] else [s[0]];
      var n := NonSpace(u, s[1..]);
      assert Lower(u, g + n) == Lower(u, g) + Lower(u, n);
    }
  }

  /** The second substitution keeps exactly the kept characters */
  lemma {:induction false} FilterMembers(u: CharClasses, s: string)
    ensures forall c :: c in Filter(u, s) <==> c in s && Kept(u, c)
    decreases |s|
  {
    if |s| > 0 {
      FilterMembers(u, s[1..]);
      assert s == [s[0]] + s[1..];
    }
  }

  /** ... and deletes nothing exactly when every character is kept */
  lemma {:induction false} FilterIdentity(u: CharClasses, s: string)
    ensures Filter(u, s) == s <==> forall i :: 0 <= i < |s| ==> Kept(u, s[i])
    decreases |s|
  {
    if |s| > 0 {
      FilterIdentity(u, s[1..]);
      if !Kept(u, s[0]) {
        assert |Filter(u, s[1..])| <= |s[1..]| < |s|;
      }
    }
  }

  lemma {:induction false} FilterImage(u: CharClasses, s: string)
    ensures IsImage(c => c, Filter(u, s), s)
    decreases |s|
  {
    if |s| > 0 {
      FilterImage(u, s[1..]);
    }
  }

  // ---------------------------------------------------------------------------
  // The whole of `_clean_text`
  // ---------------------------------------------------------------------------

  /** The output is the lower-case image of a subsequence of the input in
      which every whitespace character has become `' '`; so it is never
      longer than the input and the characters kept stay in order */
  lemma CleanTextImage(u: CharClasses, x: string)
    ensures IsImage(c => Canon(u, c), CleanText(u, x), x)
    ensures |CleanText(u, x)| <= |x|
  {
    var id := (c: char) => c;
    var blank := (c: char) => Blank(u, c);
    var a := Strip(u, x);
    var b := Collapse(u, a);
    var d := Filter(u, b);
    StripImage(u, x);
    CollapseImage(u, a);
    ImageCompose(id, blank, blank, b, a, x);
    FilterImage(u, b);
    ImageCompose(blank, id, blank, d, b, x);
    ImagePointwise(u.lower, Lower(u, d), d);
    ImageCompose(blank, u.lower, c => Canon(u, c), Lower(u, d), d, x);
    ImageLength(c => Canon(u, c), CleanText(u, x), x);
  }

  /** The non-whitespace content of the output is exactly the lower case of
      the input's kept non-whitespace characters, every occurrence, in order */
  lemma CleanTextNonSpace(u: CharClasses, x: string)
    requires Valid(u)
    ensures NonSpace(u, CleanText(u, x)) == Lower(u, Filter(u, NonSpace(u, x)))
  {
    var b := Collapse(u, Strip(u, x));
    assert AsciiSpace(' ');
    StripNonSpace(u, x);
    CollapseNonSpace(u, Strip(u, x));
    NonSpaceLower(u, Filter(u, b));
    NonSpaceFilter(u, b);
  }

  /** An empty or whitespace-only message cleans to the empty string */
  lemma CleanTextOfSpaces(u: CharClasses, x: string)
    requires forall i :: 0 <= i < |x| ==> u.isSpace(x[i])
    ensures CleanText(u, x) == []
  {
    StripOfSpaces(u, x);
  }

  /** Whitespace around a message does not change how it cleans */
  lemma CleanTextStrip(u: CharClasses, x: string)
    ensures CleanText(u, Strip(u, x)) == CleanText(u, x)
  {
    StripIdentity(u, Strip(u, x));
  }

  lemma PunctuationChars(c: char)
    ensures c in Punctuation <==> c == '.' || c == ',' || c == '!' || c == '?' || c == '-'
  {
    assert Punctuation == ['.', ',', '!', '?', '-'];
  }

  /** The characters `_clean_text` can output */
  predicate CleanChar(u: CharClasses, c: char) {
    c == ' ' || c in Punctuation || (u.isWord(c) && u.lower(c) == c)
  }

  lemma CleanCharFacts(u: CharClasses, c: char)
    requires Valid(u) && CleanChar(u, c)
    ensures Kept(u, c) && u.lower(c) == c
    ensures u.isSpace(c) <==> c == ' '
  {
    PunctuationChars(c);
    assert AsciiSpace(' ');
  }

  /** Every output character is `' '`, one of `. , ! ? -`, or a word
      character already in lower case; no other whitespace survives */
  lemma CleanTextChars(u: CharClasses, x: string)
    requires Valid(u)
    ensures forall i :: 0 <= i < |CleanText(u, x)| ==> CleanChar(u, CleanText(u, x)[i])
    ensures forall i :: 0 <= i < |CleanText(u, x)| && u.isSpace(CleanText(u, x)[i]) ==> CleanText(u, x)[i] == ' '
  {
    var b := Collapse(u, Strip(u, x));
    var d := Filter(u, b);
    var r := CleanText(u, x);
    FilterMembers(u, b);
    CollapseOnlySpace(u, Strip(u, x));
    forall i | 0 <= i < |r|
      ensures CleanChar(u, r[i])
    {
      var c := d[i];
      assert c in b;
      PunctuationChars(c);
      if u.isSpace(c) {
        assert c == ' ';
      }
    }
    forall i | 0 <= i < |r|
      ensures u.isSpace(r[i]) ==> r[i] == ' '
    {
      CleanCharFacts(u, r[i]);
    }
  }

  /** The output is empty exactly when the stripped input holds no
      character the second substitution keeps */
  lemma CleanTextEmpty(u: CharClasses, x: string)
    requires Valid(u)
    ensures CleanText(u, x) == [] <==> forall i :: 0 <= i < |Strip(u, x)| ==> !Kept(u, Strip(u, x)[i])
  {
    var a := Strip(u, x);
    var b := Collapse(u, a);
    assert AsciiSpace(' ');
    FilterMembers(u, b);
    if i :| 0 <= i < |a| && Kept(u, a[i]) {
      if u.isSpace(a[i]) {
        CollapseKeepsSpace(u, a, i);
        assert ' ' in Filter(u, b);
      } else {
        var c := a[i];
        NonSpaceMember(u, a, c);
        CollapseNonSpace(u, a);
        NonSpaceMember(u, b, c);
        assert c in Filter(u, b);
      }
    } else {
      CollapseImage(u, a);
      if |Filter(u, b)| > 0 {
        var c := Filter(u, b)[0];
        assert c in b && Kept(u, c);
        var i :| 0 <= i < |b| && b[i] == c;
        var j := ImageSource(c => Blank(u, c), b, a, i);
        assert false;
      }
    }
  }

  lemma {:induction false} NonSpaceMember(u: CharClasses, s: string, c: char)
    ensures c in NonSpace(u, s) <==> c in s && !u.isSpace(c)
    decreases |s|
  {
    if |s| > 0 {
      NonSpaceMember(u, s[1..], c);
      assert s == [s[0]] + s[1..];
    }
  }

  /** A message with a word character or kept punctuation never cleans to
      the empty string */
  lemma CleanTextVisible(u: CharClasses, x: string, i: nat)
    requires Valid(u)
    requires i < |x| && (u.isWord(x[i]) || x[i] in Punctuation)
    ensures CleanText(u, x) != []
  {
    var c := x[i];
    PunctuationChars(c);
    assert !u.isSpace(c);
    NonSpaceMember(u, x, c);
    StripNonSpace(u, x);
    NonSpaceMember(u, Strip(u, x), c);
    var j :| 0 <= j < |Strip(u, x)| && Strip(u, x)[j] == c;
    CleanTextEmpty(u, x);
  }

  // ---------------------------------------------------------------------------
  // Idempotence, and where it fails
  // ---------------------------------------------------------------------------

  /** No `' '` at either end and never two in a row */
  predicate Tidy(s: string) {
    && (|s| > 0 ==> s[0] != ' ' && s[|s| - 1] != ' ')
    && forall i :: 0 <= i < |s| - 1 && s[i] == ' ' ==> s[i + 1] != ' '
  }

  /** Strings every character of which `_clean_text` could output */
  predicate AllClean(u: CharClasses, s: string) {
    forall i :: 0 <= i < |s| ==> CleanChar(u, s[i])
  }

  /** Stripping and collapsing always gives tidy text */
  lemma StripCollapseTidy(u: CharClasses, x: string)
    requires Valid(u)
    ensures Tidy(Collapse(u, Strip(u, x)))
  {
    assert AsciiSpace(' ');
    CollapseEnds(u, Strip(u, x));
    CollapseNoDoubleSpace(u, Strip(u, x));
  }

  /** On text made of output characters, only the first two steps act */
  lemma CleanTextOfClean(u: CharClasses, s: string)
    requires Valid(u) && AllClean(u, s)
    ensures CleanText(u, s) == Collapse(u, Strip(u, s))
  {
    var a := Strip(u, s);
    var b := Collapse(u, a);
    StripImage(u, s);
    CollapseImage(u, a);
    ImageCompose(c => c, c => Blank(u, c), c => Blank(u, c), b, a, s);
    forall i | 0 <= i < |b|
      ensures CleanChar(u, b[i])
    {
      var j := ImageSource(c => Blank(u, c), b, s, i);
      CleanCharFacts(u, s[j]);
    }
    forall i | 0 <= i < |b|
      ensures Kept(u, b[i]) && u.lower(b[i]) == b[i]
    {
      CleanCharFacts(u, b[i]);
    }
    FilterIdentity(u, b);
    assert Lower(u, b) == b;
  }

  /** Tidy text made of output characters is a fixed point */
  lemma CleanTextFixedPoint(u: CharClasses, s: string)
    requires Valid(u) && AllClean(u, s) && Tidy(s)
    ensures CleanText(u, s) == s
  {
    forall i | 0 <= i < |s|
      ensures u.isSpace(s[i]) <==> s[i] == ' '
    {
      CleanCharFacts(u, s[i]);
    }
    StripIdentity(u, s);
    CollapseIdentity(u, s);
    CleanTextOfClean(u, s);
  }

  /** Cleaning twice gives the same as cleaning once exactly when the first
      result is tidy */
  lemma CleanTextIdempotentIff(u: CharClasses, x: string)
    requires Valid(u)
    ensures CleanText(u, CleanText(u, x)) == CleanText(u, x) <==> Tidy(CleanText(u, x))
  {
    var r := CleanText(u, x);
    CleanTextChars(u, x);
    CleanTextOfClean(u, r);
    StripCollapseTidy(u, r);
    if Tidy(r) {
      CleanTextFixedPoint(u, r);
    }
  }

  /** Two passes always reach a fixed point */
  lemma CleanTextTwoPasses(u: CharClasses, x: string)
    requires Valid(u)
    ensures CleanText(u, CleanText(u, CleanText(u, x))) == CleanText(u, CleanText(u, x))
  {
    var r := CleanText(u, x);
    CleanTextChars(u, x);
    CleanTextOfClean(u, r);
    StripCollapseTidy(u, r);
    CleanTextIdempotentIff(u, r);
  }

  /** Tidiness only looks at where the spaces are */
  lemma TidySameSpaces(a: string, b: string)
    requires |a| == |b| && forall i :: 0 <= i < |a| ==> (a[i] == ' ' <==> b[i] == ' ')
    ensures Tidy(a) <==> Tidy(b)
  {
  }

  /** When the second substitution deletes nothing, cleaning is idempotent */
  lemma CleanTextIdempotentWhenNothingDeleted(u: CharClasses, x: string)
    requires Valid(u)
    requires Filter(u, Collapse(u, Strip(u, x))) == Collapse(u, Strip(u, x))
    ensures CleanText(u, CleanText(u, x)) == CleanText(u, x)
  {
    var b := Collapse(u, Strip(u, x));
    var r := CleanText(u, x);
    assert r == Lower(u, b);
    StripCollapseTidy(u, x);
    CollapseOnlySpace(u, Strip(u, x));
    assert u.lower(' ') == ' ' by {
      assert AsciiLower(' ') == ' ';
    }
    forall i | 0 <= i < |b|
      ensures r[i] == ' ' <==> b[i] == ' '
    {
      if r[i] == ' ' {
        assert AsciiSpace(' ');
        assert u.isSpace(u.lower(b[i]));
      }
    }
    TidySameSpaces(b, r);
    CleanTextIdempotentIff(u, x);
  }

  /** What Python's tables say of the characters in the examples below */
  predicate ExampleTables(u: CharClasses) {
    && u.isSpace(' ') && !u.isWord(' ') && u.lower(' ') == ' '
    && !u.isSpace('a') && u.isWord('a') && u.lower('a') == 'a'
    && !u.isSpace('b') && u.isWord('b') && u.lower('b') == 'b'
    && !u.isSpace('@') && !u.isWord('@')
  }

  lemma ExampleChars(u: CharClasses)
    requires Valid(u)
    ensures ExampleTables(u)
  {
    assert AsciiSpace(' ') && !AsciiSpace('a') && !AsciiSpace('b') && !AsciiSpace('@');
    assert !AsciiWord(' ') && AsciiWord('a') && AsciiWord('b') && !AsciiWord('@');
    assert AsciiLower(' ') == ' ' && AsciiLower('a') == 'a' && AsciiLower('b') == 'b';
  }

  /** Deletion after collapsing can leave two spaces in a row, so
      `_clean_text` is not idempotent */
  lemma CleanTextNotIdempotent(u: CharClasses)
    requires Valid(u)
    ensures CleanText(u, "a @ b") == "a  b"
    ensures CleanText(u, "a  b") == "a b"
  {
    ExampleChars(u);
    ExampleDeletion(u);
    ExampleCollapse(u);
  }

  lemma ExampleDeletion(u: CharClasses)
    requires ExampleTables(u)
    ensures CleanText(u, "a @ b") == "a  b"
  {
    var s: string := "a @ b";
    StripIdentity(u, s);
    CollapseIdentity(u, s);
    ExampleFilterAt(u);
    ExampleLowerTwoSpaces(u);
  }

  lemma ExampleFilterAt(u: CharClasses)
    requires ExampleTables(u)
    ensures Filter(u, "a @ b") == "a  b"
  {
    PunctuationChars('@');
    var s: string := "a @ b";
    assert Filter(u, s[4..]) == "b";
    assert Filter(u, s[3..]) == " b";
    assert Filter(u, s[2..]) == " b";
    assert Filter(u, s[1..]) == "  b";
  }

  lemma ExampleLowerTwoSpaces(u: CharClasses)
    requires ExampleTables(u)
    ensures Lower(u, "a  b") == "a  b"
  {
    var r := Lower(u, "a  b");
    assert r[0] == 'a' && r[1] == ' ' && r[2] == ' ' && r[3] == 'b';
  }

  lemma ExampleCollapse(u: CharClasses)
    requires ExampleTables(u)
    ensures CleanText(u, "a  b") == "a b"
  {
    var s: string := "a  b";
    StripIdentity(u, s);
    ExampleCollapseTwoSpaces(u);
    ExampleFilterOneSpace(u);
    ExampleLowerOneSpace(u);
  }

  lemma ExampleCollapseTwoSpaces(u: CharClasses)
    requires ExampleTables(u)
    ensures Collapse(u, "a  b") == "a b"
  {
    var s: string := "a  b";
    ExampleTrimTwoSpaces(u);
    assert Collapse(u, "b") == "b";
    assert Collapse(u, s[1..]) == " b";
  }

  lemma ExampleTrimTwoSpaces(u: CharClasses)
    requires ExampleTables(u)
    ensures TrimStart(u, "  b") == "b"
  {
    var s: string := "  b";
    assert TrimStart(u, s[1..]) == "b";
  }

  lemma ExampleFilterOneSpace(u: CharClasses)
    requires ExampleTables(u)
    ensures Filter(u, "a b") == "a b"
  {
    var s: string := "a b";
    assert Filter(u, s[2..]) == "b";
    assert Filter(u, s[1..]) == " b";
  }

  lemma ExampleLowerOneSpace(u: CharClasses)
    requires ExampleTables(u)
    ensures Lower(u, "a b") == "a b"
  {
    var r := Lower(u, "a b");
    assert r[0] == 'a' && r[1] == ' ' && r[2] == 'b';
  }

  /** Deleting the first character can leave a leading space */
  lemma CleanTextLeadingSpace(u: CharClasses)
    requires Valid(u)
    ensures CleanText(u, "@ a") == " a"
  {
    ExampleChars(u);
    ExampleLeading(u);
  }

  lemma ExampleLeading(u: CharClasses)
    requires ExampleTables(u)
    ensures CleanText(u, "@ a") == " a"
  {
    PunctuationChars('@');
    var s: string := "@ a";
    StripIdentity(u, s);
    CollapseIdentity(u, s);
    assert Filter(u, s[1..]) == " a";
    assert Filter(u, s) == " a";
    var r := Lower(u, " a");
    assert r[0] == ' ' && r[1] == 'a';
    assert r == " a";
    assert CleanText(u, s) == r;
  }

  /** The assumptions in `Valid` can all hold at once: the ASCII-only
      reading of the tables meets them */
  lemma AsciiOnlyValid()
    ensures Valid(AsciiOnly)
  {
    assert forall c :: AsciiLower(AsciiLower(c)) == AsciiLower(c);
  }
}
